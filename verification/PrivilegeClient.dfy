/** The client's side of the privilege channel as one call. */
module PrivilegeClient {
  import opened Bytes
  import opened Privilege

  const MAX_PAYLOAD := 8192

  /** A whole exchange on connection l: a payload too large is refused before an id
      is used; else the request goes out or does not, and a reply comes in time or
      does not. */
  function Asked(l: Link, op: Code, payload: nat, sent: bool, reply: Option<Reply>): Link {
    if payload > MAX_PAYLOAD then l
    else
      var m := Send(l, op, sent);
      if m.waiting.None? then m
      else if reply.None? then GiveUp(m)
      else Receive(m.(up := [], down := [reply.value]))
  }

  class Connection {
    var nextRequestId: nat
    var closed: bool

    constructor ()
      ensures nextRequestId == NEW_LINK.nextId && !closed
    {
      nextRequestId, closed := 1, false;
    }

    /** ace_privilege_connection_request(), the connection perhaps closed already
        with a late reply still in the pipe. */
    method Ask(op: Code, payload: nat, sent: bool, reply: Option<Reply>, ghost l: Link) returns (answer: Option<Reply>)
      requires l.nextId == nextRequestId && l.closed == closed && l.waiting.None? && (!closed ==> l.down == [])
      modifies this
      ensures nextRequestId == Asked(l, op, payload, sent, reply).nextId
      ensures closed == Asked(l, op, payload, sent, reply).closed
      ensures Asked(l, op, payload, sent, reply).waiting.None?
      ensures Asked(l, op, payload, sent, reply).accepted
           == l.accepted + if answer.Some? then [(Request(old(nextRequestId), op), answer.value)] else []
    {
      assert l.accepted + [] == l.accepted;
      if closed || payload > MAX_PAYLOAD { return None; }
      var id := nextRequestId;
      nextRequestId := nextRequestId + 1;
      if !sent || reply.None? || reply.value.id != id {
        closed := true;
        return None;
      }
      return reply;
    }
  }
}
