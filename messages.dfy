/**
  Chat messages and the mutable message lists the converters build and hand
  to the generation library.
 */
module Messages {
  import opened Exceptions

  datatype Role = System | User | Assistant

  /** Why a turn ends: a user turn ends its message, an assistant turn ends the turn. */
  datatype StopReason = EndOfMessage | EndOfTurn

  /** A message; the stop reason is absent when the source does not pass one. */
  datatype Message = Message(role: Role, content: string, stopReason: Option<StopReason>)

  function SystemTurn(content: string): Message
  {
    Message(System, content, None)
  }

  function UserTurn(content: string): Message
  {
    Message(User, content, Some(EndOfMessage))
  }

  function AssistantTurn(content: string): Message
  {
    Message(Assistant, content, Some(EndOfTurn))
  }

  function Roles(d: seq<Message>): (roles: seq<Role>)
    ensures |roles| == |d| && forall i :: 0 <= i < |d| ==> roles[i] == d[i].role
  {
    seq(|d|, i requires 0 <= i < |d| => d[i].role)
  }

  /** The stop reason each role carries in these dialogs. */
  function StopFor(role: Role): Option<StopReason>
  {
    match role
    case System => None
    case User => Some(EndOfMessage)
    case Assistant => Some(EndOfTurn)
  }

  /** The role at position i of a few-shot dialog: a system turn, then user and assistant alternating. */
  function RoleAt(i: nat): Role
  {
    if i == 0 then System else if i % 2 == 1 then User else Assistant
  }

  /**
    A dialog in the converters' shape: a system prompt, then user and
    assistant turns alternating, each with its role's stop reason.
   */
  predicate FewShot(d: seq<Message>)
  {
    && d != []
    && forall i :: 0 <= i < |d| ==> d[i].role == RoleAt(i) && d[i].stopReason == StopFor(d[i].role)
  }

  /**
    Appending a user turn to a few-shot dialog that ends with the assistant
    keeps the shape, and the dialog now ends with the user, waiting for a reply.
   */
  lemma AppendUserTurn(d: seq<Message>, content: string)
    requires FewShot(d) && d[|d| - 1].role == Assistant
    ensures FewShot(d + [UserTurn(content)])
    ensures (d + [UserTurn(content)])[|d|].role == User
  {
    assert RoleAt(|d| - 1) == Assistant;
    assert |d| % 2 == 1;
  }

  /** A Python list of messages: a mutable object that callers may share. */
  class MessageList {
    var items: seq<Message>

    constructor (items: seq<Message>)
      ensures this.items == items
    {
      this.items := items;
    }

    /** `list.copy()`: a new list with the same messages. */
    method Copy() returns (c: MessageList)
      ensures fresh(c) && c.items == items
    {
      c := new MessageList(items);
    }

    /** `list.append(m)` */
    method Append(m: Message)
      modifies this
      ensures items == old(items) + [m]
    {
      items := items + [m];
    }
  }
}
