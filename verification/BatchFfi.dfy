/** One batch call across the language boundary: the Go side answers all requests concurrently and
    fills a response slice by index; the Python side unwraps the reply. */
module BatchFfi {
  import opened Text

  datatype Request = Request(id: string, options: string)

  /** What the HTTP client made of one request. */
  datatype Fetch = Fetched(body: string) | Unreachable(message: string)

  datatype Reply = Reply(id: string, ok: bool, content: string)

  /** What a call of the batch function gives its caller. */
  datatype Outcome = Raised(message: string) | Returned(replies: seq<Reply>)

  /** A request without an id is named after its position. */
  function ReplyTo(r: Request, index: nat, f: Fetch): Reply {
    var id := if r.id == "" then "batch_" + Decimal(index) else r.id;
    match f
    case Fetched(body) => Reply(id, true, body)
    case Unreachable(message) => Reply(id, false, message)
  }

  function Upto(n: nat): (r: seq<nat>)
    ensures |r| == n && forall i :: 0 <= i < n ==> r[i] == i
  {
    seq(n, i => i)
  }

  /** What makes a reply the answer to the request at that position. */
  predicate Answers(reply: Reply, r: Request, index: nat, f: Fetch) {
    && (r.id != "" ==> reply.id == r.id)
    && (r.id == "" ==> reply.id == "batch_" + Decimal(index))
    && (f.Fetched? ==> reply.ok && reply.content == f.body)
    && (f.Unreachable? ==> !reply.ok && reply.content == f.message)
  }

  /** Goroutine `order[t]` is the `t`-th to finish. */
  predicate CompletionOrder(order: seq<nat>, n: nat) {
    multiset(order) == multiset(Upto(n))
  }

  lemma CompletionOrderFacts(order: seq<nat>, n: nat)
    requires CompletionOrder(order, n)
    ensures |order| == n
    ensures forall t :: 0 <= t < |order| ==> order[t] < n
    ensures forall i :: 0 <= i < n ==> i in order
  {
    assert |multiset(order)| == |order| && |multiset(Upto(n))| == n;
    forall t | 0 <= t < |order|
      ensures order[t] < n
    {
      assert order[t] in multiset(order);
      assert order[t] in Upto(n);
    }
    forall i | 0 <= i < n
      ensures i in order
    {
      assert Upto(n)[i] == i;
      assert i in multiset(Upto(n));
      assert i in multiset(order);
    }
  }

  /** The response slice after all goroutines are done holds the answer to request `i` at index `i`,
      in whatever order they finished. */
  method FanOut(requests: seq<Request>, fetches: seq<Fetch>, order: seq<nat>) returns (replies: seq<Reply>)
    requires |fetches| == |requests| && CompletionOrder(order, |requests|)
    ensures |replies| == |requests|
    ensures forall i :: 0 <= i < |requests| ==> Answers(replies[i], requests[i], i, fetches[i])
  {
    CompletionOrderFacts(order, |requests|);
    var responses := new Option<Reply>[|requests|](_ => None);
    for t := 0 to |order|
      invariant forall i :: 0 <= i < |requests| && i in order[..t] ==>
                  responses[i] == Some(ReplyTo(requests[i], i, fetches[i]))
    {
      var index := order[t];
      responses[index] := Some(ReplyTo(requests[index], index, fetches[index]));
      assert order[..t + 1] == order[..t] + [index];
    }
    assert order[..|order|] == order;
    replies := seq(responses.Length, i requires 0 <= i < responses.Length &&
        responses[i].Some? reads responses => responses[i].value);
  }

  /** What the Go side hands back: nothing, bytes that do not decode, an error payload without a
      response list, or the response list. */
  datatype GoReply = Null | Garbled(reason: string) | ErrorPayload(message: string) | Responses(replies: seq<Reply>)

  /** The Python side: an error payload has no response list, so it reads as an empty one. */
  function Extract(g: GoReply): Outcome {
    match g
    case Null => Raised("CycleTLS batch request returned NULL response")
    case Garbled(reason) => Raised("Failed to decode response data: " + reason)
    case ErrorPayload(_) => Returned([])
    case Responses(replies) => Returned(replies)
  }

  /** The only outcomes a batch call can have: one error, an empty list, or every answer in its place. */
  ghost predicate Possible(requests: seq<Request>, o: Outcome) {
    || o.Raised?
    || o == Returned([])
    || (exists fetches: seq<Fetch> :: |fetches| == |requests| && InPlace(requests, fetches, o))
  }

  predicate InPlace(requests: seq<Request>, fetches: seq<Fetch>, o: Outcome)
    requires |fetches| == |requests|
  {
    o.Returned? && |o.replies| == |requests| &&
    forall i :: 0 <= i < |requests| ==> Answers(o.replies[i], requests[i], i, fetches[i])
  }

  /** What may go wrong around the fan-out itself. */
  datatype Fault = NoFault | LostReply | BadBytes(reason: string) | Rejected(message: string)

  /** The whole call. */
  method SendBatch(requests: seq<Request>, fetches: seq<Fetch>, order: seq<nat>, fault: Fault) returns (o: Outcome)
    requires |fetches| == |requests| && CompletionOrder(order, |requests|)
    ensures Possible(requests, o)
    ensures fault.NoFault? ==> InPlace(requests, fetches, o)
    ensures fault.Rejected? ==> o == Returned([])
    ensures fault.LostReply? || fault.BadBytes? ==> o.Raised?
  {
    var g: GoReply;
    match fault {
      case Rejected(message) => g := ErrorPayload(message);
      case LostReply => g := Null;
      case BadBytes(reason) => g := Garbled(reason);
      case NoFault =>
        var replies := FanOut(requests, fetches, order);
        g := Responses(replies);
        assert InPlace(requests, fetches, Returned(replies));
    }
    o := Extract(g);
  }
}
