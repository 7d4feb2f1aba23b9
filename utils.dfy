/**
 * The shared vocabulary of the GHS node: the three closed enumerations
 * (node state, edge status, message kind), the untyped payload values,
 * the envelope a mailbox carries, and the Edge proxy object through which a
 * node talks to one neighbour (modules/utils.py).
 */
module Utils {

  datatype Option<T> = None | Some(value: T)

  /** Node state; the integer codes are the ones the source enum assigns. */
  datatype State = Sleep | Find | Found

  /** Status of one incident edge. */
  datatype EdgeStatus = Basic | Branch | Reject

  /** The seven message kinds of the protocol. */
  datatype Message = Connect | Initiate | Test | Accept | Reject | Report | ChangeRoot

  function StateCode(s: State): (c: int)
    ensures 1 <= c <= 3
  {
    match s
    case Sleep => 1
    case Find => 2
    case Found => 3
  }

  /** Enum lookup by value: exactly the codes 1..3 name a state, each a different one. */
  function StateOfCode(c: int): (s: Option<State>)
    ensures s.Some? <==> 1 <= c <= 3
    ensures s.Some? ==> StateCode(s.value) == c
  {
    if c == 1 then Some(Sleep) else if c == 2 then Some(Find) else if c == 3 then Some(Found) else None
  }

  function EdgeStatusCode(s: EdgeStatus): (c: int)
    ensures 1 <= c <= 3
  {
    match s
    case Basic => 1
    case Branch => 2
    case Reject => 3
  }

  function EdgeStatusOfCode(c: int): (s: Option<EdgeStatus>)
    ensures s.Some? <==> 1 <= c <= 3
    ensures s.Some? ==> EdgeStatusCode(s.value) == c
  {
    if c == 1 then Some(Basic) else if c == 2 then Some(Branch) else if c == 3 then Some(EdgeStatus.Reject) else None
  }

  function MessageCode(m: Message): (c: int)
    ensures 1 <= c <= 7
  {
    match m
    case Connect => 1
    case Initiate => 2
    case Test => 3
    case Accept => 4
    case Reject => 5
    case Report => 6
    case ChangeRoot => 7
  }

  function MessageOfCode(c: int): (m: Option<Message>)
    ensures m.Some? <==> 1 <= c <= 7
    ensures m.Some? ==> MessageCode(m.value) == c
  {
    match c
    case 1 => Some(Connect)
    case 2 => Some(Initiate)
    case 3 => Some(Test)
    case 4 => Some(Accept)
    case 5 => Some(Message.Reject)
    case 6 => Some(Report)
    case 7 => Some(ChangeRoot)
    case _ => None
  }

  /** Each enumeration is closed and its codes are pairwise distinct. */
  lemma CodesDistinct()
    ensures forall s, t :: StateCode(s) == StateCode(t) ==> s == t
    ensures forall s, t :: EdgeStatusCode(s) == EdgeStatusCode(t) ==> s == t
    ensures forall m, n :: MessageCode(m) == MessageCode(n) ==> m == n
    ensures forall s :: StateOfCode(StateCode(s)) == Some(s)
    ensures forall s :: EdgeStatusOfCode(EdgeStatusCode(s)) == Some(s)
    ensures forall m :: MessageOfCode(MessageCode(m)) == Some(m)
  {
  }

  /**
   * One element of a message payload. Payloads are untyped lists in the
   * source; they carry levels, fragment names and weights (numbers) and
   * node states.
   */
  datatype Value = Num(n: int) | St(s: State)

  /** What a mailbox holds: the sender's edge identity, the kind and the payload. */
  datatype Envelope = Envelope(id: int, msg: Message, pl: seq<Value>)

  /** A vertex's mailbox, an unbounded FIFO queue. */
  class Mailbox {
    var items: seq<Envelope>

    constructor ()
      ensures items == []
    {
      items := [];
    }

    method Put(e: Envelope)
      modifies this
      ensures items == old(items) + [e]
    {
      items := items + [e];
    }
  }

  /**
   * One endpoint of a graph edge: its identity, its fixed weight, its
   * mutable status and the mailbox of the neighbour at the other end.
   */
  class Edge {
    const id: int
    const weight: int
    var status: EdgeStatus
    const queue: Mailbox

    constructor (edgeId: int, weight: int, queue: Mailbox)
      ensures id == edgeId && this.weight == weight && this.queue == queue
      ensures status == Basic
    {
      this.id := edgeId;
      this.weight := weight;
      this.queue := queue;
      status := Basic;
    }

    method GetId() returns (r: int)
      ensures r == id
    {
      r := id;
    }

    method Weight() returns (r: int)
      ensures r == weight
    {
      r := weight;
    }

    method Status() returns (r: EdgeStatus)
      ensures r == status
    {
      r := status;
    }

    method ChangeStatus(s: EdgeStatus)
      modifies this
      ensures status == s
    {
      status := s;
    }

    /** Sends on this edge: one envelope, stamped with this edge's id, lands in the peer's mailbox. */
    method Write(message: Message, payload: seq<Value>)
      modifies queue
      ensures queue.items == old(queue.items) + [Envelope(id, message, payload)]
      ensures status == old(status)
    {
      queue.Put(Envelope(id, message, payload));
    }
  }
}
