/** `Downloader.HandlerPostProcessor`: the waiter list of one fetch. Each method
    is one critical section, so each is one transition here; the handler calls a
    transition makes are returned, in call order, as deliveries. */
module PostProcessors {
  import opened Wrappers
  import opened Retrieval

  /** One call `handler.handle(result, false)`. */
  datatype Delivery = Delivery(handler: Handler, result: RetrievalResult)

  /** The registered handlers and the result, absent until `run`. */
  datatype PostProcessor = PostProcessor(handlers: seq<Handler>, result: Option<RetrievalResult>)

  /** The state after a transition and the handler calls it made. */
  datatype Step = Step(pp: PostProcessor, deliveries: seq<Delivery>)

  /** The handlers a sequence of deliveries reached, in order. */
  function Handlers(ds: seq<Delivery>): (hs: seq<Handler>)
    ensures |hs| == |ds| && forall i :: 0 <= i < |ds| ==> hs[i] == ds[i].handler
  {
    seq(|ds|, i requires 0 <= i < |ds| => ds[i].handler)
  }

  /** Every delivery carries the result `r`. */
  predicate AllCarry(ds: seq<Delivery>, r: RetrievalResult) {
    forall i :: 0 <= i < |ds| ==> ds[i].result == r
  }

  /** The constructor: one handler, no result yet. */
  function New(h: Handler): (p: PostProcessor)
    ensures p.handlers == [h] && p.result.None?
  {
    PostProcessor([h], None)
  }

  /** `addHandler`: before the result exists the handler is queued and nobody is
      called; afterwards it is called at once with the stored result and the
      waiter list is left alone. */
  function AddHandler(p: PostProcessor, h: Handler): (s: Step)
    ensures p.result.None? ==> s.pp == p.(handlers := p.handlers + [h]) && s.deliveries == []
    ensures p.result.Some? ==> s.pp == p && s.deliveries == [Delivery(h, p.result.value)]
  {
    if p.result.None? then Step(p.(handlers := p.handlers + [h]), [])
    else Step(p, [Delivery(h, p.result.value)])
  }

  /** `run`: the buffer becomes the one result, and every registered handler is
      called once with it, in registration order. */
  function Run(p: PostProcessor, buffer: Option<Bytes>): (s: Step)
    ensures s.pp.handlers == p.handlers && s.pp.result == Some(BufferResult(buffer))
    ensures Handlers(s.deliveries) == p.handlers
    ensures AllCarry(s.deliveries, BufferResult(buffer))
  {
    var r := BufferResult(buffer);
    Step(PostProcessor(p.handlers, Some(r)), seq(|p.handlers|, i requires 0 <= i < |p.handlers| => Delivery(p.handlers[i], r)))
  }

  /** An event in the life of one post-processor. */
  datatype Op = Add(handler: Handler) | Resolve(buffer: Option<Bytes>)

  function Apply(p: PostProcessor, op: Op): Step {
    match op
    case Add(h) => AddHandler(p, h)
    case Resolve(b) => Run(p, b)
  }

  /** Applies events in order, collecting every handler call. */
  function Replay(p: PostProcessor, ops: seq<Op>): Step
    decreases |ops|
  {
    if |ops| == 0 then Step(p, [])
    else
      var s1 := Apply(p, ops[0]);
      var s2 := Replay(s1.pp, ops[1..]);
      Step(s2.pp, s1.deliveries + s2.deliveries)
  }

  /** The handlers added by a sequence of events, in order. */
  function Added(ops: seq<Op>): seq<Handler>
    decreases |ops|
  {
    if |ops| == 0 then []
    else (if ops[0].Add? then [ops[0].handler] else []) + Added(ops[1..])
  }

  function ResolveCount(ops: seq<Op>): nat
    decreases |ops|
  {
    if |ops| == 0 then 0 else (if ops[0].Resolve? then 1 else 0) + ResolveCount(ops[1..])
  }

  /** The buffer of the first `Resolve` event. */
  function ResolvedBuffer(ops: seq<Op>): Option<Bytes>
    requires ResolveCount(ops) > 0
    decreases |ops|
  {
    if ops[0].Resolve? then ops[0].buffer else ResolvedBuffer(ops[1..])
  }

  /** After resolution every added handler is called immediately, once, in
      order, with the stored result, and the post-processor does not change. */
  lemma {:induction false} ResolvedDeliversImmediately(p: PostProcessor, ops: seq<Op>)
    requires p.result.Some?
    requires ResolveCount(ops) == 0
    ensures Replay(p, ops).pp == p
    ensures Handlers(Replay(p, ops).deliveries) == Added(ops)
    ensures AllCarry(Replay(p, ops).deliveries, p.result.value)
    decreases |ops|
  {
    if |ops| > 0 {
      ResolvedDeliversImmediately(p, ops[1..]);
      var s := Replay(p, ops);
      assert s.deliveries == [Delivery(ops[0].handler, p.result.value)] + Replay(p, ops[1..]).deliveries;
      assert Handlers(s.deliveries) == [ops[0].handler] + Handlers(Replay(p, ops[1..]).deliveries);
    }
  }

  lemma HandlersOfConcat(a: seq<Delivery>, b: seq<Delivery>)
    ensures Handlers(a + b) == Handlers(a) + Handlers(b)
  {
  }

  lemma AllCarryConcat(a: seq<Delivery>, b: seq<Delivery>, r: RetrievalResult)
    requires AllCarry(a, r) && AllCarry(b, r)
    ensures AllCarry(a + b, r)
  {
  }

  /** Exactly once, in order: starting unresolved and resolving once, every
      handler (those registered before and those added later) is called exactly
      once, in registration order, and every call carries the same result. */
  lemma {:induction false} DeliversEachHandlerOnce(p: PostProcessor, ops: seq<Op>)
    requires p.result.None?
    requires ResolveCount(ops) == 1
    ensures Handlers(Replay(p, ops).deliveries) == p.handlers + Added(ops)
    ensures AllCarry(Replay(p, ops).deliveries, BufferResult(ResolvedBuffer(ops)))
    ensures Replay(p, ops).pp.result == Some(BufferResult(ResolvedBuffer(ops)))
    decreases |ops|
  {
    var s1 := Apply(p, ops[0]);
    var s2 := Replay(s1.pp, ops[1..]);
    assert Replay(p, ops) == Step(s2.pp, s1.deliveries + s2.deliveries);
    HandlersOfConcat(s1.deliveries, s2.deliveries);
    if ops[0].Add? {
      assert ResolveCount(ops[1..]) == 1;
      assert ResolvedBuffer(ops) == ResolvedBuffer(ops[1..]);
      DeliversEachHandlerOnce(s1.pp, ops[1..]);
      assert s1.deliveries == [];
      assert s1.deliveries + s2.deliveries == s2.deliveries;
      assert Added(ops) == [ops[0].handler] + Added(ops[1..]);
    } else {
      var r := BufferResult(ops[0].buffer);
      assert ResolveCount(ops[1..]) == 0;
      assert ResolvedBuffer(ops) == ops[0].buffer;
      ResolvedDeliversImmediately(s1.pp, ops[1..]);
      assert Added(ops) == Added(ops[1..]);
      AllCarryConcat(s1.deliveries, s2.deliveries, r);
    }
  }
}
