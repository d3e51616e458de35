/**
 * The create-room dialog: the users that can be picked, the picking itself,
 * the checks made before the request is sent, and the reset when the dialog
 * closes. The form's state is a value; each handler gives the next value.
 */
module CreateRoomForm {
  import opened Wrappers
  import opened JsText
  import opened Ordering
  import OrderedMaps
  import Rooms
  import Gateway

  const EnterName := "Veuillez entrer un nom de salon"
  const SelectUser := "Veuillez s\U{E9}lectionner au moins un utilisateur"
  const CreationFailed := "Erreur lors de la cr\U{E9}ation du salon"
  const SomethingWentWrong := "Une erreur est survenue"

  /** The dialog's state: the name typed, the ids picked in picking order, the history flag, the error shown. */
  datatype Form = Form(roomName: string, selectedUsers: seq<int>, grantHistoryAccess: bool, error: string)

  function NotUser(id: int): Gateway.ConnectedUser -> bool {
    (u: Gateway.ConnectedUser) => u.id != id
  }

  /** `connectedUsers.filter(u => u.id !== currentUserId)`: everyone but oneself, in the list's order. */
  function AvailableUsers(connectedUsers: seq<Gateway.ConnectedUser>, currentUserId: int): (r: seq<Gateway.ConnectedUser>)
    ensures forall u :: u in r <==> u in connectedUsers && u.id != currentUserId
    ensures IsSubsequence(r, connectedUsers)
  {
    FilterSubsequence(connectedUsers, NotUser(currentUserId));
    Filter(connectedUsers, NotUser(currentUserId))
  }

  function NotId(id: int): int -> bool {
    (x: int) => x != id
  }

  /** `toggleUser`: a picked id is taken out, any other is appended. */
  function ToggleUser(selected: seq<int>, id: int): (r: seq<int>)
    ensures id in r <==> id !in selected
    ensures forall x :: x != id ==> (x in r <==> x in selected)
  {
    if id in selected then Filter(selected, NotId(id)) else selected + [id]
  }

  lemma {:induction false} FilterDistinct(s: seq<int>, p: int -> bool)
    requires OrderedMaps.Distinct(s)
    ensures OrderedMaps.Distinct(Filter(s, p))
  {
    if s != [] {
      var rest := Filter(s[1..], p);
      FilterDistinct(s[1..], p);
      assert s[0] !in s[1..];
      assert s[0] !in rest;
      var r := Filter(s, p);
      if p(s[0]) {
        forall i, j | 0 <= i < j < |r| ensures r[i] != r[j] {
          assert r[j] == rest[j - 1];
          if i > 0 {
            assert r[i] == rest[i - 1];
          }
        }
      }
    }
  }

  lemma {:induction false} FilterKeepsAll(s: seq<int>, p: int -> bool)
    requires forall i :: 0 <= i < |s| ==> p(s[i])
    ensures Filter(s, p) == s
  {
    if s != [] {
      FilterKeepsAll(s[1..], p);
      assert s == [s[0]] + s[1..];
    }
  }

  /** Picking never makes an id appear twice. */
  lemma ToggleKeepsDistinct(selected: seq<int>, id: int)
    requires OrderedMaps.Distinct(selected)
    ensures OrderedMaps.Distinct(ToggleUser(selected, id))
  {
    if id in selected {
      FilterDistinct(selected, NotId(id));
    } else {
      var r := selected + [id];
      forall i, j | 0 <= i < j < |r| ensures r[i] != r[j] {
        if j == |selected| {
          assert r[i] == selected[i];
        }
      }
    }
  }

  /** Picking an id that was not picked and then unpicking it gives back the same list. */
  lemma ToggleTwiceFromAbsent(selected: seq<int>, id: int)
    requires id !in selected
    ensures ToggleUser(ToggleUser(selected, id), id) == selected
  {
    assert id in selected + [id];
    FilterDropsLast(selected, id);
  }

  lemma FilterDropsLast(selected: seq<int>, id: int)
    requires id !in selected
    ensures Filter(selected + [id], NotId(id)) == selected
  {
    FilterAppend(selected, [id], NotId(id));
    FilterKeepsAll(selected, NotId(id));
    assert Filter([id], NotId(id)) == [] by {
      assert [id][1..] == [];
    }
  }

  lemma {:induction false} FilterAppend(a: seq<int>, b: seq<int>, p: int -> bool)
    ensures Filter(a + b, p) == Filter(a, p) + Filter(b, p)
  {
    if a == [] {
      assert a + b == b;
    } else {
      assert (a + b)[1..] == a[1..] + b;
      FilterAppend(a[1..], b, p);
    }
  }

  /** As a set, picking the same id twice restores the selection. */
  lemma ToggleTwiceSameSet(selected: seq<int>, id: int)
    ensures forall x :: x in ToggleUser(ToggleUser(selected, id), id) <==> x in selected
  {
  }

  /** The effect run when the dialog closes: name, selection and error cleared, history access on again. */
  function Closed(f: Form): (r: Form)
    ensures r.roomName == "" && r.selectedUsers == [] && r.grantHistoryAccess && r.error == ""
  {
    Form("", [], true, "")
  }

  /** What `handleSubmit` does next: show a validation error, or send the request. */
  datatype Submission = Invalid(error: string) | Send(body: Rooms.CreateRoomDto)

  /**
   * `handleSubmit` up to the request: a blank name is reported first, an
   * empty selection second; otherwise the body carries the trimmed name, the
   * picked ids and the history flag.
   */
  function Submit(f: Form): (o: Submission)
    ensures o.Invalid? <==> IsBlank(f.roomName) || |f.selectedUsers| == 0
    ensures IsBlank(f.roomName) ==> o == Invalid(EnterName)
    ensures !IsBlank(f.roomName) && |f.selectedUsers| == 0 ==> o == Invalid(SelectUser)
    ensures o.Send? ==> o.body == Rooms.CreateRoomDto(Trim(f.roomName), f.selectedUsers, f.grantHistoryAccess)
  {
    if IsBlank(f.roomName) then Invalid(EnterName)
    else if |f.selectedUsers| == 0 then Invalid(SelectUser)
    else Send(Rooms.CreateRoomDto(Trim(f.roomName), f.selectedUsers, f.grantHistoryAccess))
  }

  /** The form after `handleSubmit`'s checks: the error cleared, then set to the validation message if any. */
  function Submitted(f: Form): (r: Form)
    ensures r.roomName == f.roomName && r.selectedUsers == f.selectedUsers && r.grantHistoryAccess == f.grantHistoryAccess
    ensures Submit(f).Invalid? ==> r.error == Submit(f).error
    ensures Submit(f).Send? ==> r.error == ""
  {
    f.(error := if Submit(f).Invalid? then Submit(f).error else "")
  }

  /** A request is sent only with a name that is not blank and already trimmed, and with somebody picked. */
  lemma SentBodyWellFormed(f: Form)
    requires Submit(f).Send?
    ensures var body := Submit(f).body;
      && !IsBlank(body.name) && Trim(body.name) == body.name
      && |body.memberIds| > 0
  {
    TrimIdempotent(f.roomName);
  }

  /** A freshly closed dialog cannot send anything: the name is asked for first. */
  lemma ClosedThenSubmit(f: Form)
    ensures Submit(Closed(f)) == Invalid(EnterName)
  {
    assert LeadingSpace("") == 0;
  }

  /** How the request ended: a response with its status and `message` field, or a rejected `fetch`. */
  datatype Outcome = Response(ok: bool, message: Option<string>) | Rejected(reason: string)

  /**
   * The error shown once the request is over, `None` when the room was
   * created: a refused request shows the server's message or a default, a
   * rejected `fetch` its own message or another default.
   */
  function OutcomeError(o: Outcome): (e: Option<string>)
    ensures e.None? <==> o.Response? && o.ok
    ensures e.Some? ==> e.value != ""
    ensures o.Response? && !o.ok && o.message.Some? && o.message.value != "" ==> e == o.message
    ensures o.Rejected? && o.reason != "" ==> e == Some(o.reason)
  {
    match o
    case Response(ok, message) =>
      if ok then None
      else if message.Some? && message.value != "" then message
      else Some(CreationFailed)
    case Rejected(reason) =>
      if reason != "" then Some(reason) else Some(SomethingWentWrong)
  }
}
