/** The transcription thread and the translation loop, joined by a channel of two chunks. */
module StreamingPipeline {
  import opened SegmentCodec
  import opened Streaming

  const STREAMING_CHANNEL_CAPACITY := 2

  datatype Side = Running | Finished | Stopped

  /** `document` is the transcript the producer accumulates, `received` what the consumer has taken. */
  datatype State = State(sent: seq<Chunk>, queue: seq<Chunk>, received: seq<Chunk>, document: seq<Segment>,
                         producer: Side, consumer: Side)

  datatype Action = Produce(chunk: Chunk) | ProducerFails | ProducerEnds | Receive | ConsumerFails | ConsumerEnds

  const INITIAL := State([], [], [], [], Running, Running)

  /** Sending blocks while the channel is full; the consumer ends when the channel is empty and closed. */
  predicate Enabled(s: State, a: Action) {
    match a
    case Produce(_) => s.producer.Running? && (s.consumer.Running? ==> |s.queue| < STREAMING_CHANNEL_CAPACITY)
    case ProducerFails => s.producer.Running?
    case ProducerEnds => s.producer.Running?
    case Receive => s.consumer.Running? && s.queue != []
    case ConsumerFails => s.consumer.Running?
    case ConsumerEnds => s.consumer.Running? && s.queue == [] && !s.producer.Running?
  }

  /** A chunk joins the transcript only after the consumer's end of the channel has accepted it. */
  function Apply(s: State, a: Action): State
    requires Enabled(s, a)
  {
    match a
    case Produce(chunk) =>
      if s.consumer.Running? then
        s.(sent := s.sent + [chunk], queue := s.queue + [chunk], document := s.document + chunk.segments)
      else s.(producer := Stopped)
    case ProducerFails => s.(producer := Stopped)
    case ProducerEnds => s.(producer := Finished)
    case Receive => s.(received := s.received + [s.queue[0]], queue := s.queue[1..])
    case ConsumerFails => s.(consumer := Stopped, queue := [])
    case ConsumerEnds => s.(consumer := Finished)
  }

  predicate Runnable(s: State, actions: seq<Action>)
    decreases |actions|
  {
    actions != [] ==> Enabled(s, actions[0]) && Runnable(Apply(s, actions[0]), actions[1..])
  }

  function Run(s: State, actions: seq<Action>): State
    requires Runnable(s, actions)
    decreases |actions|
  {
    if actions == [] then s else Run(Apply(s, actions[0]), actions[1..])
  }

  predicate Inv(s: State) {
    && s.document == Source(s.sent)
    && |s.queue| <= STREAMING_CHANNEL_CAPACITY
    && (!s.consumer.Stopped? ==> s.received + s.queue == s.sent)
    && (s.consumer.Finished? ==> s.queue == [] && !s.producer.Running?)
    && s.received <= s.sent
  }

  lemma StepKeepsInv(s: State, a: Action)
    requires Inv(s) && Enabled(s, a)
    ensures Inv(Apply(s, a))
  {
    match a
    case Produce(chunk) =>
      assert (s.sent + [chunk])[..|s.sent|] == s.sent;
      assert s.received + (s.queue + [chunk]) == s.received + s.queue + [chunk];
    case Receive =>
      assert s.queue == [s.queue[0]] + s.queue[1..];
      assert (s.received + [s.queue[0]]) + s.queue[1..] == s.received + s.queue;
    case _ =>
  }

  lemma {:induction false} RunKeepsInv(s: State, actions: seq<Action>)
    requires Inv(s) && Runnable(s, actions)
    ensures Inv(Run(s, actions))
    decreases |actions|
  {
    if actions != [] {
      StepKeepsInv(s, actions[0]);
      RunKeepsInv(Apply(s, actions[0]), actions[1..]);
    }
  }

  /**
   * In every interleaving in which both sides succeed, whatever the translator answered, the translated cues
   * are the transcript's cues with other text: same number, identifiers and timings, in the same order.  So the
   * final alignment check cannot fail.
   */
  lemma StreamIsAligned(actions: seq<Action>, settings: Settings, translate: Translator)
    requires Runnable(INITIAL, actions)
    requires var s := Run(INITIAL, actions); s.producer.Finished? && s.consumer.Finished?
    requires var groups := Groups(settings, Run(INITIAL, actions).received);
             Translated(translate, settings, groups, |groups|).Ok?
    ensures var s := Run(INITIAL, actions);
            var groups := Groups(settings, s.received);
            var segments := Translated(translate, settings, groups, |groups|).value.0;
            s.received == s.sent && SameButText(s.document, segments) && Aligned(s.document, segments)
  {
    RunKeepsInv(INITIAL, actions);
    var s := Run(INITIAL, actions);
    assert s.received + [] == s.received;
    var groups := Groups(settings, s.received);
    GroupsPartition(settings, s.received);
    assert groups[..|groups|] == groups;
    TranslationKeepsCues(translate, settings, groups, |groups|);
    SameButTextAligns(s.document, Translated(translate, settings, groups, |groups|).value.0);
  }

  lemma SameButTextAligns(source: seq<Segment>, translated: seq<Segment>)
    requires SameButText(source, translated)
    ensures Aligned(source, translated)
  {
    forall i | 0 <= i < |source|
      ensures source[i].id == translated[i].id
    {
      assert translated[i] == source[i].(text := translated[i].text);
    }
  }

  // ---- What became of each side ----

  /** What the actions so far say about how each side ended. */
  predicate Accounted(s: State, actions: seq<Action>) {
    && (s.producer.Finished? <==> ProducerEnds in actions) && (s.consumer.Finished? <==> ConsumerEnds in actions)
    && (s.consumer.Stopped? <==> ConsumerFails in actions)
    && (ProducerFails in actions ==> s.producer.Stopped?)
    && (s.producer.Stopped? ==> ProducerFails in actions || ConsumerFails in actions)
  }

  lemma AccountedStep(s: State, actions: seq<Action>, a: Action)
    requires Inv(s) && Accounted(s, actions) && Enabled(s, a)
    ensures Accounted(Apply(s, a), actions + [a])
  {
  }

  lemma {:induction false} AccountedRun(s: State, before: seq<Action>, actions: seq<Action>)
    requires Inv(s) && Accounted(s, before) && Runnable(s, actions)
    ensures Accounted(Run(s, actions), before + actions)
    decreases |actions|
  {
    if actions == [] {
      assert before + actions == before;
    } else {
      StepKeepsInv(s, actions[0]);
      AccountedStep(s, before, actions[0]);
      AccountedRun(Apply(s, actions[0]), before + [actions[0]], actions[1..]);
      assert before + [actions[0]] + actions[1..] == before + actions;
    }
  }

  /**
   * A side finishes exactly when it comes to its end.  A failed side never counts as finished, and the producer stops
   * early only because it failed or because the consumer did.
   */
  lemma OutcomesAreTrue(actions: seq<Action>)
    requires Runnable(INITIAL, actions)
    ensures Accounted(Run(INITIAL, actions), actions)
  {
    AccountedRun(INITIAL, [], actions);
    assert [] + actions == actions;
  }

  /** The channel holds two chunks: with fewer the producer can send, and with two it waits. */
  lemma ChannelHoldsTwo(s: State, chunk: Chunk)
    requires Inv(s) && s.producer.Running? && s.consumer.Running?
    ensures |s.queue| <= 2 && (Enabled(s, Produce(chunk)) <==> |s.queue| < 2)
  {
  }

  /** A running side may stop at any moment, and the producer may end; the consumer ends once nothing is left. */
  lemma SidesMayStop(s: State)
    ensures s.producer.Running? ==>
              && Enabled(s, ProducerFails) && Apply(s, ProducerFails).producer.Stopped?
              && Enabled(s, ProducerEnds) && Apply(s, ProducerEnds).producer.Finished?
    ensures s.consumer.Running? ==> Enabled(s, ConsumerFails) && Apply(s, ConsumerFails).consumer.Stopped?
    ensures s.consumer.Running? && !s.producer.Running? && s.queue == [] ==>
              Enabled(s, ConsumerEnds) && Apply(s, ConsumerEnds).consumer.Finished?
  {
  }

  // ---- Neither side waits for ever ----

  /**
   * Until both sides have stopped one of them can move, whatever chunk the producer has in hand; and a producer
   * blocked on a full channel is freed when the consumer takes a chunk or goes away.
   */
  lemma SomeSideMoves(s: State, chunk: Chunk)
    requires Inv(s) && (s.producer.Running? || s.consumer.Running?)
    ensures Enabled(s, Produce(chunk)) || Enabled(s, Receive) || Enabled(s, ConsumerEnds)
    ensures s.producer.Running? && !Enabled(s, Produce(chunk)) ==>
              && Enabled(s, Receive) && Enabled(Apply(s, Receive), Produce(chunk))
              && Enabled(s, ConsumerFails) && Enabled(Apply(s, ConsumerFails), Produce(chunk))
    ensures s.producer.Running? && !s.consumer.Running? ==> Apply(s, Produce(chunk)).producer.Stopped?
  {
    if s.queue == [] && s.producer.Running? {
      assert Enabled(s, Produce(chunk));
    }
  }

  /** The steps left once one side has stopped. */
  function Left(s: State): nat {
    (if s.producer.Running? then 1 else 0) + (if s.consumer.Running? then |s.queue| + 1 else 0)
  }

  /** When one side has stopped, for whatever reason, the other stops within a bounded number of steps. */
  lemma {:induction false} OtherSideStops(s: State, actions: seq<Action>)
    requires Inv(s) && Runnable(s, actions) && !(s.producer.Running? && s.consumer.Running?)
    ensures |actions| <= Left(s)
    ensures var end := Run(s, actions);
            (end.producer.Running? || end.consumer.Running?) <==> exists a :: Enabled(end, a)
    decreases |actions|
  {
    if actions == [] {
      if s.producer.Running? || s.consumer.Running? {
        SomeSideMoves(s, Chunk(0, []));
      }
    } else {
      StepKeepsInv(s, actions[0]);
      OtherSideStops(Apply(s, actions[0]), actions[1..]);
    }
  }
}
