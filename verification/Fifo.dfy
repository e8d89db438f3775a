/** The bounded queue of messages that every ring of the driver is meant to be. */
module Fifo {
  import opened Words

  newtype Byte = b: int | 0 <= b < 256

  type Message = seq<Byte>

  /** What a reader that asked for `asked` bytes gets from one message: a message
      is handed out once, and the part that does not fit is dropped. */
  function Prefix(m: Message, asked: nat): (r: Message)
    ensures |r| == Min(asked, |m|) && r <= m
  {
    m[..Min(asked, |m|)]
  }

  datatype Delivery = Delivery(asked: nat, data: Message)

  /** What one step of an implementation does to the queue. */
  datatype Label =
    | Tau
    | Enqueue(msg: Message)
    | Dequeue(asked: nat, data: Message)

  ghost predicate Accepts(cap: nat, q: seq<Message>, act: Label, q': seq<Message>) {
    match act
    case Tau => q' == q
    case Enqueue(m) => |q| < cap && q' == q + [m]
    case Dequeue(asked, data) => q != [] && data == Prefix(q[0], asked) && q' == q[1..]
  }

  /** A whole trace of labels takes the queue from `q` to `q'`. */
  ghost predicate AcceptsAll(cap: nat, q: seq<Message>, labels: seq<Label>, q': seq<Message>) {
    if labels == [] then q' == q
    else
      var last := labels[|labels| - 1];
      exists mid ::
        AcceptsAll(cap, q, labels[..|labels| - 1], mid) && Accepts(cap, mid, last, q')
  }

  lemma ExtendTrace(cap: nat, q: seq<Message>, labels: seq<Label>, mid: seq<Message>, act: Label, q': seq<Message>)
    requires AcceptsAll(cap, q, labels, mid) && Accepts(cap, mid, act, q')
    ensures AcceptsAll(cap, q, labels + [act], q')
  {
    var all := labels + [act];
    assert all[..|all| - 1] == labels && all[|all| - 1] == act;
    assert AcceptsAll(cap, q, all[..|all| - 1], mid) && Accepts(cap, mid, all[|all| - 1], q');
  }

  /** Messages put in, and messages handed out, by a trace. */
  ghost function Entered(labels: seq<Label>): (ms: seq<Message>) {
    if labels == [] then []
    else
      var last := labels[|labels| - 1];
      Entered(labels[..|labels| - 1]) + if last.Enqueue? then [last.msg] else []
  }

  ghost function Left(labels: seq<Label>): (ds: seq<Delivery>) {
    if labels == [] then []
    else
      var last := labels[|labels| - 1];
      Left(labels[..|labels| - 1]) + if last.Dequeue? then [Delivery(last.asked, last.data)] else []
  }

  /** First in, first out, with nothing lost, doubled, reordered or torn: the
      i-th message handed out is the asked-for prefix of the i-th put in, and
      what has not been handed out is still queued, in order. */
  ghost predicate InOrder(q: seq<Message>, ins: seq<Message>, outs: seq<Delivery>, q': seq<Message>) {
    && |outs| <= |q + ins|
    && (forall i | 0 <= i < |outs| :: outs[i].data == Prefix((q + ins)[i], outs[i].asked))
    && q' == (q + ins)[|outs|..]
  }

  lemma {:induction false} TracesAreInOrder(cap: nat, q: seq<Message>, labels: seq<Label>, q': seq<Message>)
    requires AcceptsAll(cap, q, labels, q') && |q| <= cap
    ensures InOrder(q, Entered(labels), Left(labels), q')
    ensures |q'| <= cap
  {
    if labels != [] {
      var last := labels[|labels| - 1];
      var front := labels[..|labels| - 1];
      var mid :| AcceptsAll(cap, q, front, mid) && Accepts(cap, mid, last, q');
      TracesAreInOrder(cap, q, front, mid);
      var all := q + Entered(front);
      assert q + Entered(labels) == all + if last.Enqueue? then [last.msg] else [];
      var outs := Left(labels);
      assert forall i | 0 <= i < |Left(front)| :: outs[i] == Left(front)[i];
    }
  }
}
