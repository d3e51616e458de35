# nest-chat-websocket, modelled in Dafny

A model of the core of a realtime chat application. The NestJS backend has a
socket gateway and three services. The React client has a chat page and a
create-room dialog.

- **Gateway** (`ChatGateway`) keeps three in-memory maps:
  - the connected clients by socket id;
  - the clients currently typing;
  - the reactions of messages, as message id to emoji to user names. The map is keyed by the bare id, for general-chat and room messages alike.

  It answers each socket event: connection with a JWT, disconnection,
  general and room messages, typing start and stop, add and remove reaction,
  join and leave room, and the user list. Each answer updates those maps and emits events to
  socket groups (`general`, `room-<id>`) or to the calling socket.
- **Rooms service**: private rooms with a de-duplicated member list and one
  permission entry per member (history access and a join time). Only the
  creator may add members. The room history is filtered by those permissions.
  The `memberIds` column may come back as numbers, as decimal strings or as a
  comma-joined string, and is normalised before each membership test.
- **Users service**: registration with unique email and username, look-ups,
  password checking and profile update. There are also the validation rules of the register and
  update-profile payloads.
- **Chat page**:
  - the typing indicator;
  - the toggle of one's own reaction;
  - the list updates on `typingUsers`, `reactionAdded`/`reactionRemoved`, `userColorChanged` and `roomJoined`;
  - sending, with routing to the room or the general chat;
  - the typing timer of the input;
  - joining and leaving a room.
- **Create-room dialog**: the list of users that can be picked,
  picking and unpicking, the checks before the request, the request body, the
  error shown afterwards, and the reset when the dialog closes.

Modules, one per core file plus shared helpers:

| module | models |
|---|---|
| `Gateway` | `backend/src/chat/chat.gateway.ts`, as class `ChatGateway` |
| `Reactions` | the reaction store of the gateway, as functions, plus the steps of its two handlers as methods |
| `Rooms` | `backend/src/rooms/rooms.service.ts`, as class `RoomsService` over two tables kept as sequences |
| `Users` | `backend/src/users/users.service.ts`, as class `UsersService` over a map from id to row |
| `Dto` | `backend/src/auth/dto/register.dto.ts` and `backend/src/users/dto/update-profile.dto.ts` |
| `ChatClient` | `frontend/src/components/ChatWithRooms.tsx`: list updates as functions, the page as class `ChatView` |
| `CreateRoomForm` | `frontend/src/components/CreateRoomModal.tsx`, as functions on the form's state |
| `JsText` | JavaScript's `trim`, `String(n)`, `parseInt`, `split` and `join` |
| `OrderedMaps` | the JavaScript `Map`, with key-insertion order (it decides the order of `values()`) |
| `Ordering` | ordering by `createdAt` (a stable sort), `filter`, `slice` |
| `Wrappers` | `Option` and `Result` |

Modelling conventions:

- Emits are appended to an event log with their target.
- Socket groups are sets of socket ids.
- Timestamps are integers.
- The clock is a `now` parameter.
- JWT verification and bcrypt hashing are functions given at construction.
- Each database table is an in-memory sequence or map whose generated ids are kept by a `Valid()` invariant.

Behaviour of the code that a reader might not expect, which the model keeps:

- The `chatHistory` entries carry the reactions stored with the message, which are always `{}`. They do not carry the in-memory reactions.
- A disconnect removes the user but leaves its typing entry in place.
- There is one typing map shared by all rooms.
- Reactions are always broadcast to `general`.
- A general-chat message and a room message with the same id share one reaction entry, because the map is keyed by the message id alone. The page applies each reaction broadcast by id to whatever list it shows.
- `getConnectedUsers` answers any socket, connected or not.
- `sendRoomMessage` does not check that the sender is a member of the room.

## Model

| member | source | states |
|---|---|---|
| Gateway.ChatGateway.constructor | backend/src/chat/chat.gateway.ts:47-57 | the three maps start empty and no socket is in any group |
| Gateway.ChatGateway.HandleConnection | backend/src/chat/chat.gateway.ts:59-120 | a missing or empty token, a failed verification or an unknown subject adds no entry; a disconnect follows: it changes nothing for a socket never admitted, and for one already admitted it removes the entry, leaves all groups and emits `userLeft` and `connectedUsers`; otherwise the user is stored under the socket id, replacing any earlier entry, joins `general`, and `userJoined`, `connectedUsers` and `chatHistory` are emitted |
| Gateway.ChatGateway.Admit | backend/src/chat/chat.gateway.ts:75-113 | the accepting branch: `set` on the map under the socket id, join of `general`, then the three emits in order, with the user list in insertion order |
| Gateway.ChatGateway.FormattedAll | backend/src/chat/chat.gateway.ts:99-111 | one entry per history message, in order, each carrying its author's colour as looked up by id |
| Gateway.Formatted | backend/src/chat/chat.gateway.ts:102-109 | an entry copies id, username and text; it takes the timestamp from `createdAt` and the reactions from the stored message; the colour is null when the author is missing or has an empty colour |
| Gateway.HistoryWindowProperties | backend/src/chat/chat.gateway.ts:94-97 | the history has at most 100 messages from the table, in ascending `createdAt`; no message left out is earlier than one kept; and with 100 messages or fewer none is left out |
| Gateway.ChatGateway.HandleDisconnect | backend/src/chat/chat.gateway.ts:122-139 | for a registered socket, exactly its key leaves the connected map; it leaves every group; `userLeft` and then the remaining user list are broadcast; the typing map is untouched. An unregistered socket changes nothing and emits nothing |
| Gateway.ChatGateway.HandleMessage | backend/src/chat/chat.gateway.ts:141-171 | an unregistered socket changes nothing; a registered one appends a message with no reactions to the table, and `newMessage` with the author's colour goes to `general` |
| Gateway.ChatGateway.HandleGetConnectedUsers | backend/src/chat/chat.gateway.ts:173-176 | the caller gets the user list with no registration check, and nothing else changes |
| Gateway.ChatGateway.HandleStartTyping | backend/src/chat/chat.gateway.ts:178-195 | an unregistered socket changes nothing. A registered one is put in the one typing map; doing it again changes nothing. The typing names go to the room's group for a non-zero room id and to `general` otherwise; an absent body gets the framework's error after the map is updated |
| Gateway.ChatGateway.HandleStopTyping | backend/src/chat/chat.gateway.ts:197-214 | an unregistered socket changes nothing. A registered one is removed from the typing map; this changes nothing if it was not typing. The remaining names are routed as for start, and an absent body gets the framework's error after the delete |
| Gateway.TypingTarget | backend/src/chat/chat.gateway.ts:189-193 | the target is `general` exactly when the room id is null or 0, and the room's group otherwise |
| Gateway.Usernames | backend/src/chat/chat.gateway.ts:188 | the names of the typing users, one per entry, in map order |
| Gateway.ChatGateway.HandleAddReaction | backend/src/chat/chat.gateway.ts:216-251 | an unregistered socket changes nothing; otherwise the store becomes `Reactions.Added` of the old store, and the message's reactions go to `general` as `reactionAdded` |
| Gateway.ChatGateway.HandleRemoveReaction | backend/src/chat/chat.gateway.ts:253-291 | an unregistered socket, or a message or emoji without an entry, changes nothing and emits nothing; otherwise the store becomes `Reactions.Removed` of the old store, and what is left of the message's reactions goes to `general` |
| Gateway.ChatGateway.RemoveAndBroadcast | backend/src/chat/chat.gateway.ts:269-290 | past the guards: the store becomes `Reactions.Removed` and `reactionRemoved` carries `Reactions.RemovedAggregate` of the message's reactions |
| Gateway.StoreChangeKeepsInvariant | backend/src/chat/chat.gateway.ts:226-240 | any well-formed new reaction store keeps the gateway's invariant |
| Gateway.ChatGateway.HandleJoinRoom | backend/src/chat/chat.gateway.ts:293-343 | an unregistered socket changes nothing. An unknown room, or a user who is not a member, gets one `error` to the caller and joins nothing. A member joins `room-<id>` |
| Gateway.ChatGateway.JoinMember | backend/src/chat/chat.gateway.ts:323-342 | the member joins the room's group and then gets `roomJoined` with the service's view of the history, and the group gets `userJoinedRoom`; a failure while loading the history is sent to the caller, who stays in the group |
| Gateway.ChatGateway.HandleRoomMessage | backend/src/chat/chat.gateway.ts:345-371 | an unregistered socket changes nothing; otherwise the message is appended to the room-messages table, for any room and with no membership check, and is broadcast to the room's group with the author's colour |
| Gateway.ChatGateway.HandleLeaveRoom | backend/src/chat/chat.gateway.ts:373-387 | an unregistered socket changes nothing; otherwise the socket leaves exactly the room's group, and the group gets `userLeftRoom` |
| Gateway.RoomGroupNotGeneral | backend/src/chat/chat.gateway.ts:323 | no room's group is `general` |
| Gateway.RoomGroupInjective | backend/src/chat/chat.gateway.ts:323 | distinct rooms have distinct groups |
| Gateway.WithMember | backend/src/chat/chat.gateway.ts:82 | `join` adds the socket to that group only |
| Gateway.WithoutMember | backend/src/chat/chat.gateway.ts:381 | `leave` removes the socket from that group only |
| Gateway.LeftAll | backend/src/chat/chat.gateway.ts:122-139 | a disconnected socket is in no group and every other membership is kept |
| Gateway.WithMemberWithin | backend/src/chat/chat.gateway.ts:82 | joining keeps every group member among the connected sockets |
| Gateway.LeftAllWithin | backend/src/chat/chat.gateway.ts:122-139 | after the leave-all, every group member is among the sockets still connected |
| Gateway.LeftAllAbsent | backend/src/chat/chat.gateway.ts:122-139 | the leave-all changes nothing for a socket in no group |
| Reactions.AddReaction | backend/src/chat/chat.gateway.ts:224-245 | the steps of `addReaction` give `Added` of the old store; the payload is the message's map after the push; a well-formed store stays well formed |
| Reactions.RemoveReaction | backend/src/chat/chat.gateway.ts:263-285 | the steps of `removeReaction` (indexOf, splice, delete of an empty emoji, then of an empty message) give `Removed`, and the payload is `RemovedAggregate` |
| Reactions.ReactionsObject | backend/src/chat/chat.gateway.ts:242-245 | the `forEach` copy into a plain object has exactly the entries of the map |
| Reactions.Added | backend/src/chat/chat.gateway.ts:226-240 | after an add the message and emoji have an entry |
| Reactions.IndexOf | backend/src/chat/chat.gateway.ts:269 | -1 exactly when the name is absent; otherwise the first position of the name |
| Reactions.AddedWellFormed | backend/src/chat/chat.gateway.ts:226-240 | an add keeps every per-message map and every name list non-empty and free of repeats |
| Reactions.AddedReactors | backend/src/chat/chat.gateway.ts:236-240 | after an add the name is listed, once; the earlier names keep their order as a prefix; at most one name is appended |
| Reactions.AddedOthersUnchanged | backend/src/chat/chat.gateway.ts:226-240 | an add changes no other message or emoji |
| Reactions.AddedIdempotent | backend/src/chat/chat.gateway.ts:238-240 | adding the same reaction twice is adding it once |
| Reactions.RemovedWellFormed | backend/src/chat/chat.gateway.ts:269-280 | a removal keeps the store free of empty maps, empty lists and repeated names |
| Reactions.RemovedAggregateWellFormed | backend/src/chat/chat.gateway.ts:269-276 | removing within one message's map keeps its lists non-empty and free of repeats |
| Reactions.RemovedReactors | backend/src/chat/chat.gateway.ts:269-276 | on a well-formed store, a removal takes exactly that name out of the list and keeps the others in order |
| Reactions.RemainingIsWithout | backend/src/chat/chat.gateway.ts:269-272 | the list left after the `indexOf`/`splice` is the old list without the name |
| Reactions.SpliceIsWithout | backend/src/chat/chat.gateway.ts:269-272 | in a list without repeats, splicing at `indexOf` removes every occurrence of the name |
| Reactions.SpliceDistinct | backend/src/chat/chat.gateway.ts:269-272 | the splice keeps a list free of repeats |
| Reactions.RemovedOthersUnchanged | backend/src/chat/chat.gateway.ts:263-280 | a removal changes no other message or emoji |
| Reactions.RemovedAbsent | backend/src/chat/chat.gateway.ts:269-272 | removing a reaction one has not made changes neither the store nor the broadcast map |
| Reactions.RemoveUndoesAdd | backend/src/chat/chat.gateway.ts:216-291 | on a well-formed store, adding a new reaction and then removing it gives back the store as it was |
| Reactions.RemoveUndoesAddNonEmpty | backend/src/chat/chat.gateway.ts:216-291 | the same round trip, needing only that the touched map and list are not empty |
| Reactions.RemovedAggregateUndoesPush | backend/src/chat/chat.gateway.ts:232-240 | within one message's map, removing the name just pushed gives back the map as it was |
| Reactions.TwoUsersThenOneRemoves | backend/src/chat/chat.gateway.ts:216-291 | two users react with the same emoji in turn, then the first takes it back: the list is first both names in reaction order, then only the second |
| Rooms.RoomsService.constructor | backend/src/rooms/rooms.service.ts:11-16 | both tables start empty |
| Rooms.RoomsService.BuildPermissions | backend/src/rooms/rooms.service.ts:23-31 | one entry per member; the creator has history access, every other member the request's flag; all share one join time |
| Rooms.RoomsService.CreateRoom | backend/src/rooms/rooms.service.ts:18-41 | a new row is appended with the next id; its members are the creator followed by the given ids without repeats, with a permission for each as above; the messages table is unchanged |
| Rooms.Dedupe | backend/src/rooms/rooms.service.ts:21 | the de-duplicated list has the same elements and no repeats |
| Rooms.DedupeOrder | backend/src/rooms/rooms.service.ts:21 | it keeps the order of first occurrences |
| Rooms.DedupeHead | backend/src/rooms/rooms.service.ts:21 | the first element stays first |
| Rooms.DedupeOfDistinct | backend/src/rooms/rooms.service.ts:21 | a list without repeats is left as it is |
| Rooms.CreatorFirstAndOnce | backend/src/rooms/rooms.service.ts:21 | the creator heads the member list and appears in it exactly once; the members are exactly the creator and the given ids |
| Rooms.RoomsService.GetUserRooms | backend/src/rooms/rooms.service.ts:43-51 | exactly the rooms whose normalised members include the user, as a subsequence of the table |
| Rooms.RoomsService.GetRoomById | backend/src/rooms/rooms.service.ts:53-59 | NotFound exactly when no room has the id; otherwise a room with that id |
| Rooms.IndexOfId | backend/src/rooms/rooms.service.ts:54 | the first row (room or room message, by its id) with the id, or none exactly when no row has it; used for rooms here and for messages at rooms.service.ts:133 |
| Rooms.RoomsService.AddMember | backend/src/rooms/rooms.service.ts:61-85 | NotFound for an unknown room. Forbidden for a requester who is not the creator, which is checked first. Forbidden for a user already a member. The push fails on a string column. In every failure the table is unchanged. On success the id is appended, exactly one permission entry is added, and no other room changes |
| Rooms.AppendMember | backend/src/rooms/rooms.service.ts:78-82 | after the push the members are the old members and the new user |
| Rooms.RoomsService.SaveMessage | backend/src/rooms/rooms.service.ts:87-102 | a new row with the next id, no reactions and the current time is appended |
| Rooms.RoomsService.GetRoomMessages | backend/src/rooms/rooms.service.ts:104-127 | NotFound for an unknown room, Forbidden for a non-member, a read of the missing entry for a member without permissions; it succeeds exactly otherwise |
| Rooms.RoomsService.GetRoomMessagesContents | backend/src/rooms/rooms.service.ts:111-126 | a member gets messages of that room only, in ascending `createdAt`. With history access that is all of them. Without it, exactly those stamped at or after the join time, as a subsequence of the full history |
| Rooms.RoomHistoryProperties | backend/src/rooms/rooms.service.ts:116-119 | the room query returns exactly the room's messages, each as often as stored, in ascending `createdAt` |
| Rooms.VisibleSinceProperties | backend/src/rooms/rooms.service.ts:125-126 | the join-time filter keeps exactly the messages at or after the join time, in their order |
| Rooms.RoomsService.UpdateMessageReactions | backend/src/rooms/rooms.service.ts:129-140 | NotFound exactly when no message has the id, and then nothing changes; otherwise only that row's reactions are replaced |
| Rooms.NormalizeNumbers | backend/src/rooms/rooms.service.ts:46-48 | an array of numbers normalises to those ids |
| Rooms.NormalizeDecimalTexts | backend/src/rooms/rooms.service.ts:46-48 | an array of decimal strings parses back to the ids |
| Rooms.NormalizeJoined | backend/src/rooms/rooms.service.ts:46-48 | a comma-joined string of the ids splits and parses back to the ids |
| Rooms.MembershipOfForms | backend/src/rooms/rooms.service.ts:70-74 | whichever form the column takes, the membership test is membership in the ids, also for no ids, whose empty joined string parses to NaN |
| Rooms.SomesMembership | backend/src/rooms/rooms.service.ts:49 | `includes` on the parsed list is membership in the ids |
| Users.UsersService.constructor | backend/src/users/users.service.ts:9-12 | the table starts empty |
| Users.UsersService.Create | backend/src/users/users.service.ts:14-42 | Conflict on a taken email, checked first; then Conflict on a taken username; both leave the table unchanged; otherwise one new row with the next id, the hashed password and the default colour, whose stored hash `validatePassword` (users.service.ts:52-54) accepts for the same password |
| Users.UsersService.FindByEmail | backend/src/users/users.service.ts:44-46 | the row with that email exactly when one exists |
| Users.UsersService.FindByUsername | backend/src/users/users.service.ts:26-28 | the row with that username exactly when one exists |
| Users.UsersService.FindById | backend/src/users/users.service.ts:48-50 | the row with that id, or null exactly when there is none |
| Users.UsersService.UpdateProfile | backend/src/users/users.service.ts:56-68 | exactly one outcome for every payload of absent, `null` or string fields: Conflict exactly when a non-empty username is held by another id; otherwise, for an existing row, the NOT NULL violation exactly when a field is `null`; otherwise the unique-index violation exactly when the updated row's username is held by another id; otherwise success. Errors change nothing; one's own username is accepted; an update with no field succeeds and changes nothing; on success only the supplied fields of that id change and the row is read back |
| Users.Applied | backend/src/users/users.service.ts:66 | for an update without `null`, the supplied fields are replaced and the absent ones kept |
| Users.ColorOf | backend/src/chat/chat.gateway.ts:108 | the colour is null exactly when the user is missing or the colour is empty |
| Dto.ValidatorLength | backend/src/auth/dto/register.dto.ts:5-10 | the length `MinLength`/`MaxLength` measure (validator.js `isLength`): at most the number of characters, and equal to it exactly when the string holds no variation selector U+FE0E/U+FE0F |
| Dto.ValidatorLengthAppend | backend/src/auth/dto/register.dto.ts:5-10 | the length of a concatenation is the sum of the lengths |
| Dto.VariationSelectorNotCounted | backend/src/auth/dto/register.dto.ts:5-10 | an appended variation selector adds nothing to the length |
| Dto.RegisterValidExactly | backend/src/auth/dto/register.dto.ts:4-17 | for two strings without variation selectors, registration is valid exactly when the username has 3 to 20 characters and the password at least 6 |
| Dto.RegisterFieldsMustBeStrings | backend/src/auth/dto/register.dto.ts:4-17 | a missing, null or non-string field is refused whatever the other holds |
| Dto.RegisterPasswordUnbounded | backend/src/auth/dto/register.dto.ts:13-17 | no password is too long: anything appended to a valid one stays valid |
| Dto.RegisterVariationSelectorShort | backend/src/auth/dto/register.dto.ts:5-7 | `"ab"` followed by U+FE0F has length 2 and is refused by `MinLength(3)` |
| Dto.RegisterUsernameBoundaries | backend/src/auth/dto/register.dto.ts:5-10 | a username of n plain letters is accepted exactly when 3 <= n <= 20, so 2 and 21 are refused and 3 and 20 accepted |
| Dto.EmptyProfileUpdateValid | backend/src/users/dto/update-profile.dto.ts:4-11 | an empty payload, or one with null fields, is valid |
| Dto.ProfileFieldsMustBeStrings | backend/src/users/dto/update-profile.dto.ts:4-10 | a present field that is not a string is refused |
| Dto.ProfileUsernameExactly | backend/src/users/dto/update-profile.dto.ts:4-7 | a present username without variation selectors is valid exactly when it has at least 3 characters; inserting a variation selector anywhere does not change validity; there is no upper bound |
| Dto.HexColorCaseInsensitive | backend/src/users/dto/update-profile.dto.ts:11 | the colour matches exactly when its upper-case form matches the upper-case pattern |
| Dto.HexColorExamples | backend/src/users/dto/update-profile.dto.ts:11 | `#FF0000` and `#ff0000` are accepted; `#FFF`, `FF0000` and `#GG0000` are refused |
| Dto.Upper | backend/src/users/dto/update-profile.dto.ts:11 | the case folding of the `i` flag keeps the length and folds each letter |
| Dto.UpperAscii | backend/src/users/dto/update-profile.dto.ts:11 | a lower-case letter becomes its upper-case form; any other character is kept |
| ChatClient.ChatView.constructor | frontend/src/components/ChatWithRooms.tsx:46-60 | the page starts with no messages, an empty input, no typing users, no room and no timer |
| ChatClient.ChatView.Send | frontend/src/components/ChatWithRooms.tsx:224-239 | with a blank input or no socket nothing happens; otherwise the trimmed text goes to the current room or to the general chat, followed by a bodiless `stopTyping`; the timer and the input are cleared |
| ChatClient.ChatView.HandleInputChange | frontend/src/components/ChatWithRooms.tsx:241-264 | `startTyping` is sent only for a non-blank value with no pending timer, and the timer is then set; a blank value sends `stopTyping` and clears the timer; without a socket only the input changes |
| ChatClient.ChatView.TypingTimeoutElapsed | frontend/src/components/ChatWithRooms.tsx:256-259 | the timer sends `stopTyping` with the room captured when it was set, and clears itself |
| ChatClient.AnnouncedAfter | frontend/src/components/ChatWithRooms.tsx:241-264 | a typing event decides whether a start is the last one announced, and any other event leaves that unchanged; this keeps the page's invariant that a timer is pending exactly after a start |
| ChatClient.TypingAnnounced | frontend/src/components/ChatWithRooms.tsx:247-249 | a start was announced only if some `startTyping` was sent |
| ChatClient.RoomArg | frontend/src/components/ChatWithRooms.tsx:248 | `currentRoom?.id \|\| null` is the room's id, and null outside a room or for the id 0 |
| ChatClient.TypingReachesCurrentGroup | frontend/src/components/ChatWithRooms.tsx:248 | the typing event sent inside a room with a non-zero id reaches that room's group, and otherwise `general` |
| ChatClient.ChatView.Join | frontend/src/components/ChatWithRooms.tsx:275-285 | `joinRoom` with the room's id is sent exactly when there is a socket |
| ChatClient.ChatView.OnRoomJoined | frontend/src/components/ChatWithRooms.tsx:139-146 | the page enters the room and shows its messages, in order, each stamped with the arrival time |
| ChatClient.ChatView.Leave | frontend/src/components/ChatWithRooms.tsx:287-294 | inside a room and with a socket: `leaveRoom` is sent, the room is cleared and the general messages are shown again; otherwise nothing changes |
| ChatClient.ChatView.OnTypingUsers | frontend/src/components/ChatWithRooms.tsx:176-179 | the typing list is the received list without one's own name |
| ChatClient.VisibleTypists | frontend/src/components/ChatWithRooms.tsx:177 | one's own name is dropped, every other received name is kept, and the order is preserved |
| ChatClient.TypingIndicatorText | frontend/src/components/ChatWithRooms.tsx:303-313 | the text is empty exactly when nobody types; one name is followed by the singular "is writing" ending; two names are the first, " et ", the second and the plural ending; three or more end with the "people are writing" ending |
| ChatClient.TypingIndicatorCount | frontend/src/components/ChatWithRooms.tsx:310-311 | with three names or more the text opens with their number |
| ChatClient.ChatView.OnReactionUpdate | frontend/src/components/ChatWithRooms.tsx:181-195 | only the shown list is updated, as `WithReactions` |
| ChatClient.WithReactions | frontend/src/components/ChatWithRooms.tsx:181-195 | the same length; the message with the id gets the broadcast reactions; every other message is unchanged |
| ChatClient.WithReactionsLatestWins | frontend/src/components/ChatWithRooms.tsx:181-195 | of two broadcasts for one message the later is shown |
| ChatClient.WithReactionsCommute | frontend/src/components/ChatWithRooms.tsx:181-195 | broadcasts for different messages commute |
| ChatClient.ChatView.OnUserColorChanged | frontend/src/components/ChatWithRooms.tsx:197-214 | both lists get the colour; one's own profile gets it exactly when the id is one's own |
| ChatClient.WithColor | frontend/src/components/ChatWithRooms.tsx:200-210 | the same length; exactly the messages by that username get the colour |
| ChatClient.WithColorShowsColor | frontend/src/components/ChatWithRooms.tsx:200-210 | afterwards every message of the user shows the colour, and all their other fields are kept |
| ChatClient.WithColorLatestWins | frontend/src/components/ChatWithRooms.tsx:200-210 | a second colour change overrides the first |
| ChatClient.ChatView.ToggleReaction | frontend/src/components/ChatWithRooms.tsx:315-334 | with a socket, exactly the event `ToggleEmit` decides is sent |
| ChatClient.ToggleEmit | frontend/src/components/ChatWithRooms.tsx:325-334 | `removeReaction` exactly when one's name is listed, a missing map or list counting as empty; `addReaction` exactly otherwise |
| ChatClient.ToggleFlips | frontend/src/components/ChatWithRooms.tsx:325-334 | when the page shows the gateway's reactions, the gateway's answer to the toggle flips one's reaction: a listed name is gone, an unlisted one is listed |
| CreateRoomForm.AvailableUsers | frontend/src/components/CreateRoomModal.tsx:33 | everyone connected but oneself, in the list's order |
| CreateRoomForm.ToggleUser | frontend/src/components/CreateRoomModal.tsx:44-50 | the id's membership flips, and no other id changes |
| CreateRoomForm.ToggleKeepsDistinct | frontend/src/components/CreateRoomModal.tsx:44-50 | toggling never creates a duplicate |
| CreateRoomForm.ToggleTwiceFromAbsent | frontend/src/components/CreateRoomModal.tsx:44-50 | picking an unpicked id and unpicking it gives back the same list |
| CreateRoomForm.ToggleTwiceSameSet | frontend/src/components/CreateRoomModal.tsx:44-50 | as a set, toggling twice restores the selection |
| CreateRoomForm.FilterDistinct | frontend/src/components/CreateRoomModal.tsx:47 | filtering a list without repeats gives a list without repeats |
| CreateRoomForm.Closed | frontend/src/components/CreateRoomModal.tsx:35-42 | closing clears the name, the selection and the error, and turns history access back on |
| CreateRoomForm.Submit | frontend/src/components/CreateRoomModal.tsx:52-81 | a blank name is reported first and an empty selection second; no request goes out exactly in those cases; otherwise the body carries the trimmed name, the picked ids and the history flag |
| CreateRoomForm.Submitted | frontend/src/components/CreateRoomModal.tsx:54-64 | the error is cleared and then set to the validation message if any; the other fields are kept |
| CreateRoomForm.SentBodyWellFormed | frontend/src/components/CreateRoomModal.tsx:56-80 | a sent name is non-blank and already trimmed, and at least one user is picked |
| CreateRoomForm.ClosedThenSubmit | frontend/src/components/CreateRoomModal.tsx:35-64 | a freshly closed dialog asks for a name |
| CreateRoomForm.OutcomeError | frontend/src/components/CreateRoomModal.tsx:83-96 | no error exactly when the response is ok; otherwise a non-empty message: the server's message or a default for a refused request, and the error's own message or a default for a rejected `fetch` |
| JsText.Trim | frontend/src/components/CreateRoomModal.tsx:56 | `trim()` is the slice left once the leading white space and the trailing white space are cut, and it is empty exactly when the string is all white space |
| JsText.TrimIdempotent | frontend/src/components/CreateRoomModal.tsx:77 | trimming twice is trimming once |
| JsText.ParseIntOfIntToString | backend/src/rooms/rooms.service.ts:47 | `parseInt(String(n), 10)` is `n` |
| JsText.ParseIntOfNatThen | frontend/src/components/ChatWithRooms.tsx:311 | `parseInt` of a number followed by a non-digit reads the number |
| JsText.IntToStringInjective | backend/src/rooms/rooms.service.ts:47 | distinct integers have distinct decimal forms |
| JsText.SplitJoin | backend/src/rooms/rooms.service.ts:48 | splitting a join on a separator that no piece holds gives the pieces back |
| OrderedMaps.PutValid | backend/src/chat/chat.gateway.ts:81 | `set` binds the key, leaves the other keys alone and keeps the order well formed |
| OrderedMaps.RemoveValid | backend/src/chat/chat.gateway.ts:125 | `delete` forgets the key and leaves the other keys alone |
| OrderedMaps.PutNewValues | backend/src/chat/chat.gateway.ts:186-188 | setting a new key appends its value to `values()` |
| OrderedMaps.PutExistingValues | backend/src/chat/chat.gateway.ts:81 | setting a present key keeps the order and replaces that value in place |
| OrderedMaps.PutUnchanged | backend/src/chat/chat.gateway.ts:186 | setting a key to its own value changes nothing |
| OrderedMaps.RemoveValues | backend/src/chat/chat.gateway.ts:205-207 | deleting a key removes exactly its value from `values()`, and the order of the rest is kept |
| OrderedMaps.RemoveAbsent | backend/src/chat/chat.gateway.ts:205 | deleting an absent key changes nothing |
| OrderedMaps.Values | backend/src/chat/chat.gateway.ts:91 | `values()` lists one value per key in insertion order |
| OrderedMaps.WithoutAt | backend/src/chat/chat.gateway.ts:271 | in a list without repeats, removing the name takes out exactly its position |
| Ordering.SortBySorted | backend/src/chat/chat.gateway.ts:95 | the `createdAt` ordering returns the same messages, sorted |
| Ordering.InsertBySorted | backend/src/chat/chat.gateway.ts:95 | inserting into a sorted list keeps it sorted and adds exactly the new element |
| Ordering.FilterSorted | backend/src/rooms/rooms.service.ts:126 | filtering a sorted list keeps it sorted |
| Ordering.FilterSubsequence | backend/src/rooms/rooms.service.ts:126 | `filter` returns a subsequence of its input |
| Ordering.FilterMultiset | backend/src/rooms/rooms.service.ts:126 | `filter` keeps every occurrence of an element that passes and none of one that fails |
| Ordering.Take | backend/src/chat/chat.gateway.ts:96 | `take` returns the first `n` elements, or every element when there are fewer |

## Left out

- Socket.io delivery: the model records the emits in a log with their targets, and groups as sets of socket ids; actual delivery, acknowledgements and reconnection are not modelled.
- JWT verification and bcrypt are library code: they are functions given to the gateway and to the users service, and the bcrypt salt is not modelled.
- TypeORM persistence: tables are in-memory sequences and maps. The column encodings are not modelled. The order among messages with the same `createdAt` is taken to be insertion order.
- Dates: `new Date()`, `toISOString()` and `toLocaleTimeString()` become integer timestamps given as a `now` parameter, so the comparison of `createdAt` with `joinedAt` as `Date` objects is integer comparison.
- Promise concurrency: `Promise.all` in `handleConnection` is a sequential pass over the history.
- Interleaving of handlers: every async handler is modelled as running to completion without a pause. The source gives control back at each `await`: in `handleConnection` (chat.gateway.ts:68, 94, 99), `handleMessage` (:150), `handleJoinRoom` (:307, :326) and `handleRoomMessage` (:354). Other events can run in those pauses. For example, a disconnect that arrives while `handleConnection` waits for `findById` finds no client to remove; the resumed handler then stores the user and joins `general` for a socket that is gone. The gateway invariant (`Gateway.GatewayInvariant`, with `GroupsWithin`) holds only because the model has no such pauses.
- Gateway.ChatGateway.HandleConnection: the `try`/`catch` around a throwing repository is not modelled; only the token checks and the user look-up can reject.
- Gateway.ChatGateway.HandleMessage: a failed save, which the source only logs, is not modelled.
- Gateway.ChatGateway.HandleRoomMessage: a failed save, which the source reports to the caller as `error`, is not modelled.
- Gateway.ChatGateway.HandleStartTyping: the framework's reply to the `TypeError` of an absent body is modelled as one `exception` event to the caller, with no further detail.
- Console logging is left out everywhere.
- Users.UsersService.UpdateProfile: the `updatedAt` column is not modelled. TypeORM's `update` sets it on every call, and that is why an update with no field is still a valid statement; the model shows such an update as success with the row unchanged. The NOT NULL and UNIQUE failures are the database's constraint errors. They are modelled as `NotNullViolation` and `UniqueViolation` without their messages, with NOT NULL checked first, as SQLite does. An update of an id with no row matches nothing and so fails on neither.
- Absent message bodies: only `startTyping` and `stopTyping` take a body that may be missing (`TypingData.Undefined`). The other handlers take their fields as typed arguments, so an event sent without a body is not modelled for them. In the source, for a connected socket: `sendMessage` throws inside its `try` and only logs (chat.gateway.ts:146-170); `sendRoomMessage` replies with an `error` event carrying the `TypeError`'s message (:353-370); `addReaction`, `removeReaction` and `leaveRoom` fail on reading the missing body (:224, :262, :381), and the framework sends the caller an `exception` event. `joinRoom` reads `data.roomId` at :298, before its connected check, so any socket, connected or not, gets that `exception` event.
- Reactions.ReactionsObject: the plain object is a map, so the key order of its JSON form is not modelled.
- Dto.ValidatorLength: validator.js is library code outside the repository. Its `isLength` is modelled from its definition: the string's UTF-16 length less its surrogate pairs and its U+FE0E/U+FE0F selectors, which is the number of Dafny characters other than those two selectors. Other grapheme clusters (combining marks, joiner sequences) count character by character, as in the library.
- Dto: validation of the room DTOs and the HTTP controllers that apply the validators are outside the core.
- Chat page handlers not modelled: `chatHistory`, `newMessage`, `newRoomMessage`, `userJoined`/`userLeft` (which read a stale `currentRoom` from the effect's closure), `connectedUsers`, logout, the room list load and all rendering.
- Create-room dialog: the `fetch` call itself, the `isLoading` flag, the 100 ms delay and the parent's callbacks are not modelled; `OutcomeError` covers what the request's end shows.

Behaviour of the code that the model keeps as written:

- Sending a message with the chat page emits `stopTyping` with no body. The gateway then deletes the typing entry and throws while reading `data.roomId`, so the remaining typists are never broadcast (see `ChatClient.ChatView.Send` and `Gateway.ChatGateway.HandleStopTyping`).
- A room with id 0 is treated as no room when typing: `currentRoom?.id || null` and `if (data.roomId)` both send the event to `general`.
- Reaction updates change only the shown message list, not the saved general-chat list, so they are lost on leaving a room.
- The gateway's room messages have no `timestamp` field, so the page stamps each with the time it joined.
- No server code in this model emits `userColorChanged`; the page's handler is modelled on its own.
