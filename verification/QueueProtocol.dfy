/** The double-buffered queue as a protocol: producers push to one side while the
    consumer pops from the other; when the consumer's side runs dry, or a pop returns
    nothing, the sides are exchanged.  Every step is atomic under the locks. */
module QueueProtocol {
  import opened Bytes

  datatype Message = Message(host: int, data: seq<byte>)

  /** `exchanging`: the drain loop has ended and the exchange is next.  `pushed` and
      `delivered` record all that went in and all that was handed to the reader. */
  datatype Queue = Queue(producer: seq<Message>, consumer: seq<Message>, exchanging: bool,
                         pushed: seq<Message>, delivered: seq<Message>)

  datatype Step = Push(m: Message) | Pop | Exchange

  const EMPTY := Queue([], [], false, [], [])

  predicate Enabled(q: Queue, step: Step) {
    match step
    case Push(_) => true
    case Pop => !q.exchanging
    case Exchange => q.exchanging
  }

  /** Pop returns the size of the message: zero, for an empty queue and for an empty
      message alike, ends the loop. */
  function Next(q: Queue, step: Step): Queue
    requires Enabled(q, step)
  {
    match step
    case Push(m) => q.(producer := q.producer + [m], pushed := q.pushed + [m])
    case Pop =>
      if q.consumer == [] then q.(exchanging := true)
      else if q.consumer[0].data == [] then q.(consumer := q.consumer[1..], exchanging := true)
      else q.(consumer := q.consumer[1..], delivered := q.delivered + [q.consumer[0]])
    case Exchange => q.(producer := q.consumer, consumer := q.producer, exchanging := false)
  }

  predicate Enables(q: Queue, run: seq<Step>)
    decreases run
  {
    run == [] || (Enabled(q, run[0]) && Enables(Next(q, run[0]), run[1..]))
  }

  function After(q: Queue, run: seq<Step>): Queue
    requires Enables(q, run)
    decreases run
  {
    if run == [] then q else After(Next(q, run[0]), run[1..])
  }

  ghost predicate NoneEmpty(ms: seq<Message>) {
    forall m :: m in ms ==> m.data != []
  }

  /** Nothing is lost, doubled or reordered on its way. */
  ghost predicate InOrder(q: Queue) {
    && q.delivered + q.consumer + q.producer == q.pushed
    && (q.exchanging ==> q.consumer == [])
  }

  lemma StepKeepsOrder(q: Queue, step: Step)
    requires Enabled(q, step) && InOrder(q) && NoneEmpty(Next(q, step).pushed)
    ensures InOrder(Next(q, step))
  {
    var q' := Next(q, step);
    match step {
      case Push(m) =>
        assert q'.delivered + q'.consumer + q'.producer == q.delivered + q.consumer + q.producer + [m];
      case Pop =>
        if q.consumer != [] {
          assert q.consumer[0] in q.delivered + q.consumer + q.producer;
          assert q.consumer == [q.consumer[0]] + q.consumer[1..];
        }
      case Exchange =>
        assert q.consumer == [];
    }
  }

  lemma StepOnlyAppends(q: Queue, step: Step)
    requires Enabled(q, step)
    ensures q.pushed <= Next(q, step).pushed && q.delivered <= Next(q, step).delivered
  {}

  lemma {:induction false} RunOnlyAppends(q: Queue, run: seq<Step>)
    requires Enables(q, run)
    ensures q.pushed <= After(q, run).pushed && q.delivered <= After(q, run).delivered
    decreases run
  {
    if run != [] {
      StepOnlyAppends(q, run[0]);
      RunOnlyAppends(Next(q, run[0]), run[1..]);
    }
  }

  /** First in, first out, exactly once, over every interleaving of steps, as long as
      no empty message is pushed. */
  lemma {:induction false} FirstInFirstOut(q: Queue, run: seq<Step>)
    requires Enables(q, run) && InOrder(q) && NoneEmpty(After(q, run).pushed)
    ensures InOrder(After(q, run))
    decreases run
  {
    if run != [] {
      var q' := Next(q, run[0]);
      RunOnlyAppends(q', run[1..]);
      assert forall m :: m in q'.pushed ==> m in After(q, run).pushed;
      StepKeepsOrder(q, run[0]);
      FirstInFirstOut(q', run[1..]);
    }
  }

  predicate NoExchange(run: seq<Step>) {
    forall i :: 0 <= i < |run| ==> run[i] != Exchange
  }

  // ----- what empty messages do -----

  function NonEmpty(ms: seq<Message>): seq<Message> {
    if ms == [] then []
    else if ms[0].data == [] then NonEmpty(ms[1..])
    else [ms[0]] + NonEmpty(ms[1..])
  }

  lemma {:induction false} NonEmptyConcat(a: seq<Message>, b: seq<Message>)
    ensures NonEmpty(a + b) == NonEmpty(a) + NonEmpty(b)
  {
    if a == [] {
      assert a + b == b;
    } else {
      assert (a + b)[1..] == a[1..] + b;
      NonEmptyConcat(a[1..], b);
    }
  }

  /** The messages with data are delivered and waiting in the order they were pushed. */
  ghost predicate DataInOrder(q: Queue) {
    q.delivered + NonEmpty(q.consumer) + NonEmpty(q.producer) == NonEmpty(q.pushed)
  }

  /** Neither a push nor a pop, of whatever message, changes whether they are. */
  lemma PushAndPopKeepOrder(q: Queue, step: Step)
    requires Enabled(q, step) && step != Exchange
    ensures DataInOrder(Next(q, step)) <==> DataInOrder(q)
  {
    match step {
      case Push(m) =>
        var data := NonEmpty([m]);
        NonEmptyConcat(q.producer, [m]);
        NonEmptyConcat(q.pushed, [m]);
        Assoc(q.delivered + NonEmpty(q.consumer), NonEmpty(q.producer), data);
        SameEnd(q.delivered + NonEmpty(q.consumer) + NonEmpty(q.producer), NonEmpty(q.pushed), data);
      case Pop =>
        if q.consumer != [] && q.consumer[0].data != [] {
          Assoc(q.delivered, [q.consumer[0]], NonEmpty(q.consumer[1..]));
        }
    }
  }

  lemma SameEnd(a: seq<Message>, b: seq<Message>, end: seq<Message>)
    ensures a + end == b + end <==> a == b
  {
    if a + end == b + end {
      assert a == (a + end)[..|a|] && b == (b + end)[..|b|];
    }
  }

  lemma SameBegin(begin: seq<Message>, a: seq<Message>, b: seq<Message>)
    ensures begin + a == begin + b <==> a == b
  {
    if begin + a == begin + b {
      assert a == (begin + a)[|begin|..] && b == (begin + b)[|begin|..];
    }
  }

  /** The data on the two sides is the same either way round. */
  ghost predicate Swappable(q: Queue) {
    NonEmpty(q.consumer) + NonEmpty(q.producer) == NonEmpty(q.producer) + NonEmpty(q.consumer)
  }

  /** An exchange keeps the order if and only if what an empty message left behind on
      the consumer's side could as well stand behind the producer's. */
  lemma ExchangeKeepsOrder(q: Queue)
    requires Enabled(q, Exchange) && DataInOrder(q)
    ensures DataInOrder(Next(q, Exchange)) <==> Swappable(q)
  {
    var c, p := NonEmpty(q.consumer), NonEmpty(q.producer);
    Assoc(q.delivered, c, p);
    Assoc(q.delivered, p, c);
    SameBegin(q.delivered, c + p, p + c);
  }

  ghost predicate AlwaysInOrder(q: Queue, run: seq<Step>)
    requires Enables(q, run)
    decreases run
  {
    DataInOrder(q) && (run != [] ==> AlwaysInOrder(Next(q, run[0]), run[1..]))
  }

  ghost predicate SwappableExchanges(q: Queue, run: seq<Step>)
    requires Enables(q, run)
    decreases run
  {
    run != [] ==> (run[0] == Exchange ==> Swappable(q)) && SwappableExchanges(Next(q, run[0]), run[1..])
  }

  /** Over every run, whatever is pushed, the order is kept all along if and only if
      every exchange finds the data on its two sides swappable. */
  lemma {:induction false} OrderIsKept(q: Queue, run: seq<Step>)
    requires Enables(q, run) && DataInOrder(q)
    ensures AlwaysInOrder(q, run) <==> SwappableExchanges(q, run)
    decreases run
  {
    if run != [] {
      var q' := Next(q, run[0]);
      if run[0] == Exchange {
        ExchangeKeepsOrder(q);
      } else {
        PushAndPopKeepOrder(q, run[0]);
      }
      if DataInOrder(q') {
        OrderIsKept(q', run[1..]);
      } else {
        NotAlways(q', run[1..]);
      }
    }
  }

  lemma NotAlways(q: Queue, run: seq<Step>)
    requires Enables(q, run) && !DataInOrder(q)
    ensures !AlwaysInOrder(q, run)
  {}

  function UntilEmpty(ms: seq<Message>): seq<Message> {
    if ms == [] || ms[0].data == [] then [] else [ms[0]] + UntilEmpty(ms[1..])
  }

  function AfterEmpty(ms: seq<Message>): seq<Message> {
    if ms == [] then [] else if ms[0].data == [] then ms[1..] else AfterEmpty(ms[1..])
  }

  /** A drain, whatever is pushed meanwhile, delivers its side up to the first empty
      message and leaves what stands behind that. */
  lemma {:induction false} DrainDelivers(q: Queue, run: seq<Step>)
    requires Enables(q, run) && NoExchange(run) && !q.exchanging && After(q, run).exchanging
    ensures After(q, run).delivered == q.delivered + UntilEmpty(q.consumer)
    ensures After(q, run).consumer == AfterEmpty(q.consumer)
    decreases run
  {
    var q' := Next(q, run[0]);
    NoExchangeLater(run);
    if q'.exchanging {
      StaysExchanging(q', run[1..]);
    } else {
      DrainDelivers(q', run[1..]);
      if run[0] == Pop {
        Assoc(q.delivered, [q.consumer[0]], UntilEmpty(q.consumer[1..]));
      }
    }
  }

  lemma {:induction false} UntilNone(ms: seq<Message>)
    ensures UntilEmpty(ms) == ms <==> NoneEmpty(ms)
  {
    if ms != [] {
      UntilNone(ms[1..]);
      assert ms == [ms[0]] + ms[1..];
      assert NoneEmpty(ms) <==> ms[0].data != [] && NoneEmpty(ms[1..]);
    }
  }

  /** All that was pushed before one exchange is delivered, and no more, by the end of
      the drain that follows it, whatever is pushed meanwhile, if and only if none of
      the messages handed over is empty. */
  lemma DeliveredByNextDrain(q: Queue, run: seq<Step>)
    requires InOrder(q) && q.exchanging
    requires Enables(Next(q, Exchange), run) && NoExchange(run) && After(Next(q, Exchange), run).exchanging
    ensures After(Next(q, Exchange), run).delivered == q.pushed <==> NoneEmpty(q.producer)
  {
    DrainDelivers(Next(q, Exchange), run);
    UntilNone(q.producer);
    SameBegin(q.delivered, UntilEmpty(q.producer), q.producer);
    assert q.delivered + [] + q.producer == q.delivered + q.producer;
  }

  lemma NoExchangeLater(run: seq<Step>)
    requires NoExchange(run) && run != []
    ensures run[0] != Exchange && NoExchange(run[1..])
  {
    forall i | 0 <= i < |run[1..]| ensures run[1..][i] != Exchange {
      assert run[i + 1] != Exchange;
    }
  }

  lemma {:induction false} StaysExchanging(q: Queue, run: seq<Step>)
    requires Enables(q, run) && NoExchange(run) && q.exchanging
    ensures After(q, run).delivered == q.delivered && After(q, run).consumer == q.consumer
    decreases run
  {
    if run != [] {
      NoExchangeLater(run);
      StaysExchanging(Next(q, run[0]), run[1..]);
    }
  }

  /** Whatever is pushed, every message with data is delivered or waiting exactly once
      and nothing else is ever delivered. */
  ghost predicate Conserved(q: Queue) {
    && NoneEmpty(q.delivered)
    && multiset(q.delivered) + multiset(NonEmpty(q.consumer)) + multiset(NonEmpty(q.producer)) == multiset(NonEmpty(q.pushed))
  }

  lemma {:induction false} RunConserves(q: Queue, run: seq<Step>)
    requires Enables(q, run) && Conserved(q)
    ensures Conserved(After(q, run))
    decreases run
  {
    if run != [] {
      StepConserves(q, run[0]);
      RunConserves(Next(q, run[0]), run[1..]);
    }
  }

  lemma StepConserves(q: Queue, step: Step)
    requires Enabled(q, step) && Conserved(q)
    ensures Conserved(Next(q, step))
  {
    match step {
      case Push(m) => PushConserves(q, m);
      case Pop => PopConserves(q);
      case Exchange =>
    }
  }

  lemma PushConserves(q: Queue, m: Message)
    requires Conserved(q)
    ensures Conserved(Next(q, Push(m)))
  {
    NonEmptyConcat(q.producer, [m]);
    NonEmptyConcat(q.pushed, [m]);
  }

  lemma PopConserves(q: Queue)
    requires Enabled(q, Pop) && Conserved(q)
    ensures Conserved(Next(q, Pop))
  {
    if q.consumer != [] {
      assert q.consumer == [q.consumer[0]] + q.consumer[1..];
    }
  }

  /** When both sides are empty, what was delivered is what was pushed, in order,
      exactly when no empty message was pushed. */
  lemma DrainedIsComplete(run: seq<Step>)
    requires Enables(EMPTY, run)
    requires After(EMPTY, run).consumer == [] && After(EMPTY, run).producer == []
    ensures After(EMPTY, run).delivered == After(EMPTY, run).pushed <==> NoneEmpty(After(EMPTY, run).pushed)
  {
    var q := After(EMPTY, run);
    RunConserves(EMPTY, run);
    if NoneEmpty(q.pushed) {
      FirstInFirstOut(EMPTY, run);
      assert q.delivered + [] + [] == q.delivered;
    }
  }

  /** The drain that stopped at the empty message hands its rest back behind the next one. */
  lemma RestComesLate(e: Message, a: Message, b: Message)
    requires e.data == [] && a.data != [] && b.data != []
    ensures var q, run := Queue([b], [e, a], false, [e, a, b], []), [Pop, Exchange, Pop, Pop, Exchange, Pop];
      Enables(q, run) && After(q, run) == Queue([], [], false, [e, a, b], [b, a])
  {
    var q5 := Queue([b], [e, a], false, [e, a, b], []);
    var q6 := Queue([b], [a], true, [e, a, b], []);
    var q7 := Queue([a], [b], false, [e, a, b], []);
    var q8 := Queue([a], [], false, [e, a, b], [b]);
    var q9 := q8.(exchanging := true);
    var q10 := Queue([], [a], false, [e, a, b], [b]);
    assert Next(q5, Pop) == q6 && Next(q6, Exchange) == q7 && Next(q7, Pop) == q8;
    assert Next(q8, Pop) == q9 && Next(q9, Exchange) == q10;
    Prepend(q10, Pop, []);
    Prepend(q9, Exchange, [Pop]);
    Prepend(q8, Pop, [Exchange, Pop]);
    Prepend(q7, Pop, [Pop, Exchange, Pop]);
    Prepend(q6, Exchange, [Pop, Pop, Exchange, Pop]);
    Prepend(q5, Pop, [Exchange, Pop, Pop, Exchange, Pop]);
  }

  lemma HandedOver(e: Message, a: Message, rest: seq<Step>)
    requires e.data == [] && a.data != []
    requires Enables(Queue([], [e, a], false, [e, a], []), rest)
    ensures var run := [Push(e)] + ([Push(a)] + ([Pop] + ([Exchange] + rest)));
      Enables(EMPTY, run) && After(EMPTY, run) == After(Queue([], [e, a], false, [e, a], []), rest)
  {
    var q1 := Queue([e], [], false, [e], []);
    var q2 := Queue([e, a], [], false, [e, a], []);
    var q3 := q2.(exchanging := true);
    assert Next(EMPTY, Push(e)) == q1 && Next(q1, Push(a)) == q2 && Next(q2, Pop) == q3;
    assert Next(q3, Exchange) == Queue([], [e, a], false, [e, a], []);
    Prepend(q3, Exchange, rest);
    Prepend(q2, Pop, [Exchange] + rest);
    Prepend(q1, Push(a), [Pop] + ([Exchange] + rest));
    Prepend(EMPTY, Push(e), [Push(a)] + ([Pop] + ([Exchange] + rest)));
  }

  /** One empty message is enough to turn two others round. */
  lemma EmptyMessageReorders(e: Message, a: Message, b: Message)
    requires e.data == [] && a.data != [] && b.data != [] && a != b
    ensures var run := [Push(e), Push(a), Pop, Exchange, Push(b), Pop, Exchange, Pop, Pop, Exchange, Pop];
      && Enables(EMPTY, run)
      && After(EMPTY, run).pushed == [e, a, b] && After(EMPTY, run).delivered == [b, a]
  {
    var q4 := Queue([], [e, a], false, [e, a], []);
    var run := [Pop, Exchange, Pop, Pop, Exchange, Pop];
    RestComesLate(e, a, b);
    Prepend(q4, Push(b), run);
    var rest := [Push(b)] + run;
    HandedOver(e, a, rest);
    assert [Push(e)] + ([Push(a)] + ([Pop] + ([Exchange] + rest)))
        == [Push(e), Push(a), Pop, Exchange, Push(b), Pop, Exchange, Pop, Pop, Exchange, Pop];
  }

  lemma Prepend(q: Queue, step: Step, run: seq<Step>)
    requires Enabled(q, step) && Enables(Next(q, step), run)
    ensures Enables(q, [step] + run) && After(q, [step] + run) == After(Next(q, step), run)
  {
    assert ([step] + run)[1..] == run;
  }
}
