/**
 * The chat page of the web client: what it shows of the messages, the typing
 * users and the reactions, and the socket events it emits. The list updates
 * are functions on the lists; the page itself is a class whose fields are the
 * component's state and the typing timer, with emitted events appended to a
 * log. Timestamps are integers.
 */
module ChatClient {
  import opened Wrappers
  import opened JsText
  import opened Ordering
  import Reactions
  import Rooms
  import Gateway

  datatype User = User(id: int, username: string, email: string, displayColor: Option<string>)

  /** A message as the page holds it; `reactions` and `displayColor` may be missing. */
  datatype Message = Message(
    id: int,
    username: string,
    message: string,
    timestamp: int,
    reactions: Option<map<string, seq<string>>>,
    displayColor: Option<string>)

  /** The events the page sends on its socket, with their bodies. */
  datatype Emit =
    | SendMessage(message: string)
    | SendRoomMessage(roomId: int, message: string)
    | StartTyping(data: Gateway.TypingData)
    | StopTyping(data: Gateway.TypingData)
    | AddReaction(messageId: int, emoji: string)
    | RemoveReaction(messageId: int, emoji: string)
    | JoinRoom(roomId: int)
    | LeaveRoom(roomId: int)

  // ---------------------------------------------------------------------------
  // Typing indicator

  const IsWriting := " est en train d'\U{E9}crire..."
  const AreWriting := " sont en train d'\U{E9}crire..."
  const PeopleWriting := " personnes sont en train d'\U{E9}crire..."

  /** `getTypingIndicatorText`: nothing, one name, two names, or a count. */
  function TypingIndicatorText(names: seq<string>): (t: string)
    ensures t == "" <==> names == []
    ensures 1 <= |names| <= 2 ==> names[0] <= t
    ensures |names| == 1 ==> t[|names[0]|..] == IsWriting
    ensures |names| == 2 ==>
      var rest := t[|names[0]|..];
      && 4 + |names[1]| <= |rest|
      && rest[..4] == " et "
      && rest[4..][..|names[1]|] == names[1]
      && rest[4 + |names[1]|..] == AreWriting
    ensures |names| >= 3 ==> |PeopleWriting| <= |t| && t[|t| - |PeopleWriting|..] == PeopleWriting
  {
    if |names| == 0 then ""
    else if |names| == 1 then names[0] + IsWriting
    else if |names| == 2 then names[0] + " et " + names[1] + AreWriting
    else NatToString(|names|) + PeopleWriting
  }

  /** With three names or more the text opens with their number, which `parseInt` reads back. */
  lemma TypingIndicatorCount(names: seq<string>)
    requires |names| >= 3
    ensures ParseInt(TypingIndicatorText(names)) == Some(|names|)
  {
    assert PeopleWriting[0] == ' ';
    ParseIntOfNatThen(|names|, PeopleWriting);
  }

  function NotNamed(name: string): string -> bool {
    (n: string) => n != name
  }

  /** The `typingUsers` handler: the received names without one's own, in the order received. */
  function VisibleTypists(usernames: seq<string>, own: string): (r: seq<string>)
    ensures own !in r
    ensures forall n :: n in r <==> n in usernames && n != own
    ensures IsSubsequence(r, usernames)
  {
    FilterSubsequence(usernames, NotNamed(own));
    Filter(usernames, NotNamed(own))
  }

  // ---------------------------------------------------------------------------
  // Message list updates

  /** The `reactionAdded` and `reactionRemoved` handlers: the message with that id gets the broadcast reactions. */
  function WithReactions(msgs: seq<Message>, messageId: int, reactions: map<string, seq<string>>): (r: seq<Message>)
    ensures |r| == |msgs|
    ensures forall i :: 0 <= i < |msgs| && msgs[i].id == messageId ==> r[i] == msgs[i].(reactions := Some(reactions))
    ensures forall i :: 0 <= i < |msgs| && msgs[i].id != messageId ==> r[i] == msgs[i]
  {
    seq(|msgs|, i requires 0 <= i < |msgs| =>
      if msgs[i].id == messageId then msgs[i].(reactions := Some(reactions)) else msgs[i])
  }

  /** Of two broadcasts for the same message the later one is what the page shows. */
  lemma WithReactionsLatestWins(msgs: seq<Message>, messageId: int, first: map<string, seq<string>>, second: map<string, seq<string>>)
    ensures WithReactions(WithReactions(msgs, messageId, first), messageId, second) == WithReactions(msgs, messageId, second)
  {
    var a := WithReactions(WithReactions(msgs, messageId, first), messageId, second);
    var b := WithReactions(msgs, messageId, second);
    assert |a| == |b|;
    forall i | 0 <= i < |a| ensures a[i] == b[i] {
    }
  }

  /** Broadcasts for different messages can be applied in either order. */
  lemma WithReactionsCommute(msgs: seq<Message>, m1: int, r1: map<string, seq<string>>, m2: int, r2: map<string, seq<string>>)
    requires m1 != m2
    ensures WithReactions(WithReactions(msgs, m1, r1), m2, r2) == WithReactions(WithReactions(msgs, m2, r2), m1, r1)
  {
    var a := WithReactions(WithReactions(msgs, m1, r1), m2, r2);
    var b := WithReactions(WithReactions(msgs, m2, r2), m1, r1);
    assert |a| == |b|;
    forall i | 0 <= i < |a| ensures a[i] == b[i] {
    }
  }

  /** The `userColorChanged` handler on one list: every message by that username gets the colour. */
  function WithColor(msgs: seq<Message>, username: string, color: string): (r: seq<Message>)
    ensures |r| == |msgs|
    ensures forall i :: 0 <= i < |msgs| && msgs[i].username == username ==> r[i] == msgs[i].(displayColor := Some(color))
    ensures forall i :: 0 <= i < |msgs| && msgs[i].username != username ==> r[i] == msgs[i]
  {
    seq(|msgs|, i requires 0 <= i < |msgs| =>
      if msgs[i].username == username then msgs[i].(displayColor := Some(color)) else msgs[i])
  }

  /** After a colour change every message of that user shows the new colour, and nothing else about them changes. */
  lemma WithColorShowsColor(msgs: seq<Message>, username: string, color: string)
    ensures var r := WithColor(msgs, username, color);
      && (forall m :: m in r && m.username == username ==> m.displayColor == Some(color))
      && (forall i :: 0 <= i < |r| ==>
            (r[i].id, r[i].username, r[i].message, r[i].reactions) ==
            (msgs[i].id, msgs[i].username, msgs[i].message, msgs[i].reactions))
  {
    var r := WithColor(msgs, username, color);
    forall m | m in r && m.username == username ensures m.displayColor == Some(color) {
      var i :| 0 <= i < |r| && r[i] == m;
    }
  }

  /** A second colour change of the same user overrides the first. */
  lemma WithColorLatestWins(msgs: seq<Message>, username: string, first: string, second: string)
    ensures WithColor(WithColor(msgs, username, first), username, second) == WithColor(msgs, username, second)
  {
    var a := WithColor(WithColor(msgs, username, first), username, second);
    var b := WithColor(msgs, username, second);
    assert |a| == |b|;
    forall i | 0 <= i < |a| ensures a[i] == b[i] {
    }
  }

  // ---------------------------------------------------------------------------
  // Reactions toggle

  /** `(message.reactions || {})[emoji] || []`: who reacted with the emoji, as the page knows it. */
  function ReactorsOf(message: Message, emoji: string): seq<string> {
    if message.reactions.Some? && emoji in message.reactions.value then message.reactions.value[emoji] else []
  }

  /** `toggleReaction`: take one's reaction back if one's name is listed, add it otherwise. */
  function ToggleEmit(message: Message, emoji: string, own: string): (e: Emit)
    ensures e == RemoveReaction(message.id, emoji) <==> own in ReactorsOf(message, emoji)
    ensures e == AddReaction(message.id, emoji) <==> own !in ReactorsOf(message, emoji)
  {
    if own in ReactorsOf(message, emoji) then RemoveReaction(message.id, emoji) else AddReaction(message.id, emoji)
  }

  /**
   * When the page shows the gateway's reactions for the message, the event a
   * toggle sends makes the gateway flip the user's reaction: a name that was
   * listed is gone afterwards, a name that was not is listed.
   */
  lemma ToggleFlips(store: Reactions.Store, message: Message, emoji: string, own: string)
    requires Reactions.WellFormed(store)
    requires ReactorsOf(message, emoji) == Reactions.Reactors(store, message.id, emoji)
    ensures var before := Reactions.Reactors(store, message.id, emoji);
      if ToggleEmit(message, emoji, own).RemoveReaction? then
        && message.id in store && emoji in store[message.id]
        && own !in Reactions.Reactors(Reactions.Removed(store, message.id, emoji, own), message.id, emoji)
        && own in before
      else
        && own in Reactions.Reactors(Reactions.Added(store, message.id, emoji, own), message.id, emoji)
        && own !in before
  {
    var before := Reactions.Reactors(store, message.id, emoji);
    if own in before {
      assert message.id in store && emoji in store[message.id];
      Reactions.RemovedReactors(store, message.id, emoji, own);
    } else {
      Reactions.AddedReactors(store, message.id, emoji, own);
    }
  }

  // ---------------------------------------------------------------------------
  // Typing events

  /** `currentRoom?.id || null`: the room's id, or null outside a room and for the falsy id 0. */
  function RoomArg(currentRoom: Option<Rooms.Room>): (r: Option<int>)
    ensures r.Some? <==> currentRoom.Some? && currentRoom.value.id != 0
    ensures r.Some? ==> r.value == currentRoom.value.id
  {
    if currentRoom.Some? && currentRoom.value.id != 0 then Some(currentRoom.value.id) else None
  }

  /** The typing events the page sends reach the room's group inside a room, and the general group outside. */
  lemma TypingReachesCurrentGroup(currentRoom: Option<Rooms.Room>)
    ensures var g := Gateway.TypingTarget(RoomArg(currentRoom));
      if currentRoom.Some? && currentRoom.value.id != 0 then g == Gateway.RoomGroup(currentRoom.value.id)
      else g == Gateway.General
  {
  }

  /** Whether the last typing event sent, if any, was `startTyping`. */
  function TypingAnnounced(emits: seq<Emit>): (b: bool)
    ensures b ==> exists i :: 0 <= i < |emits| && emits[i].StartTyping?
  {
    if emits == [] then false
    else
      var last := emits[|emits| - 1];
      if last.StartTyping? then true
      else if last.StopTyping? then false
      else TypingAnnounced(emits[..|emits| - 1])
  }

  lemma AnnouncedAfter(emits: seq<Emit>, e: Emit)
    ensures TypingAnnounced(emits + [e]) ==
      if e.StartTyping? then true else if e.StopTyping? then false else TypingAnnounced(emits)
  {
    assert (emits + [e])[..|emits|] == emits;
  }

  // ---------------------------------------------------------------------------
  // The page

  class ChatView {
    var messages: seq<Message>
    var generalChatMessages: seq<Message>
    var newMessage: string
    var typingUsers: seq<string>
    var currentRoom: Option<Rooms.Room>
    var user: User
    /** `typingTimeoutRef.current`: the `roomId` the pending `stopTyping` will carry, `None` when no timer is set. */
    var typingTimeout: Option<Option<int>>
    var emits: seq<Emit>
    /** Whether the socket has been created. */
    const hasSocket: bool

    /**
     * A stop timer is pending exactly when the last typing event sent was a
     * start, and then the input is not blank.
     */
    ghost predicate Valid()
      reads this
    {
      && (typingTimeout.Some? <==> TypingAnnounced(emits))
      && (typingTimeout.Some? ==> hasSocket && !IsBlank(newMessage))
    }

    constructor(user: User, hasSocket: bool)
      ensures Valid()
      ensures this.user == user && this.hasSocket == hasSocket
      ensures messages == [] && generalChatMessages == [] && newMessage == "" && typingUsers == []
      ensures currentRoom == None && typingTimeout == None && emits == []
    {
      this.user := user;
      this.hasSocket := hasSocket;
      messages := [];
      generalChatMessages := [];
      newMessage := "";
      typingUsers := [];
      currentRoom := None;
      typingTimeout := None;
      emits := [];
    }

    /**
     * `sendMessage`: with a non-blank input and a socket, the trimmed text is
     * sent to the current room or to the general chat, then a `stopTyping`
     * without a body; the timer is cleared and so is the input.
     */
    method Send()
      requires Valid()
      modifies this`emits, this`typingTimeout, this`newMessage
      ensures Valid()
      ensures IsBlank(old(newMessage)) || !hasSocket ==>
        emits == old(emits) && typingTimeout == old(typingTimeout) && newMessage == old(newMessage)
      ensures !IsBlank(old(newMessage)) && hasSocket ==>
        var text := Trim(old(newMessage));
        && emits == old(emits) + [
             if currentRoom.Some? then SendRoomMessage(currentRoom.value.id, text) else SendMessage(text),
             StopTyping(Gateway.Undefined)]
        && typingTimeout == None
        && newMessage == ""
    {
      if !IsBlank(newMessage) && hasSocket {
        var text := Trim(newMessage);
        var message := if currentRoom.Some? then SendRoomMessage(currentRoom.value.id, text) else SendMessage(text);
        AnnouncedAfter(emits, message);
        AnnouncedAfter(emits + [message], StopTyping(Gateway.Undefined));
        emits := emits + [message, StopTyping(Gateway.Undefined)];
        typingTimeout := None;
        newMessage := "";
      }
    }

    /**
     * `handleInputChange`: the input takes the value; with a socket, a
     * non-blank value sends `startTyping` unless a timer is pending and
     * (re)starts the timer, a blank one sends `stopTyping` and clears it.
     */
    method HandleInputChange(value: string)
      requires Valid()
      modifies this`newMessage, this`emits, this`typingTimeout
      ensures Valid()
      ensures newMessage == value
      ensures !hasSocket ==> emits == old(emits) && typingTimeout == old(typingTimeout)
      ensures hasSocket ==>
        var data := Gateway.Body(RoomArg(currentRoom));
        if IsBlank(value) then
          emits == old(emits) + [StopTyping(data)] && typingTimeout == None
        else
          && emits == old(emits) + (if old(typingTimeout).None? then [StartTyping(data)] else [])
          && typingTimeout == Some(RoomArg(currentRoom))
    {
      newMessage := value;
      if hasSocket {
        var data := Gateway.Body(RoomArg(currentRoom));
        if IsBlank(value) {
          AnnouncedAfter(emits, StopTyping(data));
          emits := emits + [StopTyping(data)];
          typingTimeout := None;
        } else {
          if typingTimeout.None? {
            AnnouncedAfter(emits, StartTyping(data));
            emits := emits + [StartTyping(data)];
          }
          typingTimeout := Some(RoomArg(currentRoom));
        }
      }
    }

    /** The timer's callback: `stopTyping` with the room captured when the timer was set, and the timer cleared. */
    method TypingTimeoutElapsed()
      requires Valid()
      modifies this`emits, this`typingTimeout
      ensures Valid()
      ensures old(typingTimeout).None? ==> emits == old(emits) && typingTimeout == None
      ensures old(typingTimeout).Some? ==>
        emits == old(emits) + [StopTyping(Gateway.Body(old(typingTimeout).value))] && typingTimeout == None
    {
      if typingTimeout.Some? {
        var data := Gateway.Body(typingTimeout.value);
        AnnouncedAfter(emits, StopTyping(data));
        emits := emits + [StopTyping(data)];
        typingTimeout := None;
      }
    }

    /** `joinRoom`: the request to join goes out when there is a socket. */
    method Join(room: Rooms.Room)
      requires Valid()
      modifies this`emits
      ensures Valid()
      ensures emits == old(emits) + (if hasSocket then [JoinRoom(room.id)] else [])
    {
      if hasSocket {
        AnnouncedAfter(emits, JoinRoom(room.id));
        emits := emits + [JoinRoom(room.id)];
      }
    }

    /**
     * The `roomJoined` handler: the page enters the room and shows its
     * messages. The gateway's room messages carry no `timestamp`, so each
     * gets the time of arrival.
     */
    method OnRoomJoined(room: Rooms.Room, roomMessages: seq<Rooms.RoomMessage>, now: int)
      requires Valid()
      modifies this`currentRoom, this`messages
      ensures Valid()
      ensures currentRoom == Some(room)
      ensures |messages| == |roomMessages|
      ensures forall i :: 0 <= i < |roomMessages| ==>
        messages[i] == Message(roomMessages[i].id, roomMessages[i].username, roomMessages[i].message, now,
                               Some(roomMessages[i].reactions), None)
    {
      currentRoom := Some(room);
      messages := seq(|roomMessages|, i requires 0 <= i < |roomMessages| =>
        Message(roomMessages[i].id, roomMessages[i].username, roomMessages[i].message, now,
                Some(roomMessages[i].reactions), None));
    }

    /** `leaveRoom`: inside a room and with a socket, the page says so, leaves the room and shows the general chat again. */
    method Leave()
      requires Valid()
      modifies this`emits, this`currentRoom, this`messages
      ensures Valid()
      ensures !hasSocket || old(currentRoom).None? ==>
        emits == old(emits) && currentRoom == old(currentRoom) && messages == old(messages)
      ensures hasSocket && old(currentRoom).Some? ==>
        && emits == old(emits) + [LeaveRoom(old(currentRoom).value.id)]
        && currentRoom == None
        && messages == generalChatMessages
    {
      if hasSocket && currentRoom.Some? {
        AnnouncedAfter(emits, LeaveRoom(currentRoom.value.id));
        emits := emits + [LeaveRoom(currentRoom.value.id)];
        currentRoom := None;
        messages := generalChatMessages;
      }
    }

    /** The `typingUsers` handler. */
    method OnTypingUsers(usernames: seq<string>)
      requires Valid()
      modifies this`typingUsers
      ensures Valid()
      ensures typingUsers == VisibleTypists(usernames, user.username)
    {
      typingUsers := VisibleTypists(usernames, user.username);
    }

    /** The `reactionAdded` and `reactionRemoved` handlers, which are the same: only the shown list is updated. */
    method OnReactionUpdate(messageId: int, reactions: map<string, seq<string>>)
      requires Valid()
      modifies this`messages
      ensures Valid()
      ensures messages == WithReactions(old(messages), messageId, reactions)
    {
      messages := WithReactions(messages, messageId, reactions);
    }

    /** The `userColorChanged` handler: both lists get the colour, and one's own profile when the id is one's own. */
    method OnUserColorChanged(userId: int, username: string, displayColor: string)
      requires Valid()
      modifies this`generalChatMessages, this`messages, this`user
      ensures Valid()
      ensures generalChatMessages == WithColor(old(generalChatMessages), username, displayColor)
      ensures messages == WithColor(old(messages), username, displayColor)
      ensures user == if userId == old(user).id then old(user).(displayColor := Some(displayColor)) else old(user)
    {
      generalChatMessages := WithColor(generalChatMessages, username, displayColor);
      messages := WithColor(messages, username, displayColor);
      if userId == user.id {
        user := user.(displayColor := Some(displayColor));
      }
    }

    /** `toggleReaction`: with a socket, the add or remove the toggle decides on. */
    method ToggleReaction(message: Message, emoji: string)
      requires Valid()
      modifies this`emits
      ensures Valid()
      ensures emits == old(emits) + (if hasSocket then [ToggleEmit(message, emoji, user.username)] else [])
    {
      if hasSocket {
        var e := ToggleEmit(message, emoji, user.username);
        AnnouncedAfter(emits, e);
        emits := emits + [e];
      }
    }
  }
}
