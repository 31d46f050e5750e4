/** The command mailbox as a transition system. Every accepted connection starts a handler;
    a handler that parses its request empties the queue and then, in a second step, posts its
    command without waiting. One consumer, created by the accept loop, takes commands out.
    Steps of all of them interleave in any order. A queued command is named by its handler,
    since no handler posts twice. */
module Mailbox {

  const CAPACITY := 30

  type Handler = nat

  datatype Phase = Parsing | Cleared | Finished

  datatype State = State(
    consumers: nat,                // web_recdata instances created so far
    handleSet: bool,               // urlRecHandle != NULL
    phase: map<Handler, Phase>,
    queue: seq<Handler>)

  datatype Event =
    | Accept(h: Handler, consumerCreated: bool, handlerCreated: bool)
    | Abort(h: Handler)            // the request does not parse
    | Reset(h: Handler)            // xQueueReset
    | Send(h: Handler)             // xQueueSend with timeout 0
    | Receive                      // xQueueReceive

  const BOOT := State(0, false, map[], [])

  ghost predicate InPhase(s: State, h: Handler, p: Phase) {
    h in s.phase && s.phase[h] == p
  }

  ghost predicate Enabled(s: State, e: Event) {
    match e
    case Accept(h, _, _) => h !in s.phase
    case Abort(h) => InPhase(s, h, Parsing)
    case Reset(h) => InPhase(s, h, Parsing)
    case Send(h) => InPhase(s, h, Cleared)
    case Receive => s.consumers > 0 && s.queue != []
  }

  /** The guard `urlRecHandle == NULL` in front of the consumer's creation. */
  function CreateConsumer(s: State, created: bool): State {
    if !s.handleSet && created then s.(consumers := s.consumers + 1, handleSet := true) else s
  }

  ghost function Next(s: State, e: Event): State
    requires Enabled(s, e)
  {
    match e
    case Accept(h, c, started) =>
      var t := CreateConsumer(s, c);
      if started then t.(phase := t.phase[h := Parsing]) else t
    case Abort(h) => s.(phase := s.phase[h := Finished])
    case Reset(h) => s.(phase := s.phase[h := Cleared], queue := [])
    case Send(h) =>
      s.(phase := s.phase[h := Finished], queue := if |s.queue| < CAPACITY then s.queue + [h] else s.queue)
    case Receive => s.(queue := s.queue[1..])
  }

  function Init(es: seq<Event>): seq<Event>
    requires es != []
  {
    es[..|es| - 1]
  }

  function Last<T>(s: seq<T>): T
    requires s != []
  {
    s[|s| - 1]
  }

  // ----- Runs and their histories -----

  ghost predicate Valid(es: seq<Event>)
    decreases |es|, 0
  {
    es == [] || (Valid(Init(es)) && Enabled(After(Init(es)), Last(es)))
  }

  ghost function After(es: seq<Event>): State
    requires Valid(es)
    decreases |es|, 1
  {
    if es == [] then BOOT else Next(After(Init(es)), Last(es))
  }

  ghost predicate SendFails(s: State, e: Event) {
    e.Send? && |s.queue| >= CAPACITY
  }

  /** The commands that entered the queue, in order. */
  ghost function Sent(es: seq<Event>): seq<Handler>
    requires Valid(es)
  {
    if es == [] then []
    else if Last(es).Send? && !SendFails(After(Init(es)), Last(es)) then Sent(Init(es)) + [Last(es).h]
    else Sent(Init(es))
  }

  /** The commands that the consumer took out, in order. */
  ghost function Received(es: seq<Event>): seq<Handler>
    requires Valid(es)
  {
    if es == [] then []
    else if Last(es).Receive? then Received(Init(es)) + [After(Init(es)).queue[0]]
    else Received(Init(es))
  }

  ghost predicate SomeSendFailed(es: seq<Event>)
    requires Valid(es)
  {
    es != [] && (SomeSendFailed(Init(es)) || SendFails(After(Init(es)), Last(es)))
  }

  ghost function Between(s: State): set<Handler> {
    set h | h in s.phase && s.phase[h] == Cleared
  }

  /** At no moment of the run are more than `n` handlers between their reset and their send. */
  ghost predicate Bounded(es: seq<Event>, n: nat)
    requires Valid(es)
  {
    |Between(After(es))| <= n && (es != [] ==> Bounded(Init(es), n))
  }

  lemma Extend(es: seq<Event>, e: Event, n: nat)
    requires Valid(es) && Enabled(After(es), e)
    ensures Valid(es + [e]) && After(es + [e]) == Next(After(es), e)
    ensures Bounded(es + [e], n) <==> Bounded(es, n) && |Between(Next(After(es), e))| <= n
    ensures SomeSendFailed(es + [e]) <==> SomeSendFailed(es) || SendFails(After(es), e)
    ensures Sent(es + [e]) == if e.Send? && !SendFails(After(es), e) then Sent(es) + [e.h] else Sent(es)
    ensures Received(es + [e]) == if e.Receive? then Received(es) + [After(es).queue[0]] else Received(es)
  {
    assert Init(es + [e]) == es && Last(es + [e]) == e;
  }

  lemma BetweenNext(s: State, e: Event)
    requires Enabled(s, e)
    ensures Between(Next(s, e)) ==
            if e.Reset? then Between(s) + {e.h} else if e.Send? then Between(s) - {e.h} else Between(s)
    ensures e.Reset? ==> e.h !in Between(s)
    ensures e.Send? ==> e.h in Between(s)
    ensures e.Reset? ==> Between(Next(s, e)) != {}
  {
    if e.Reset? {
      assert e.h in Between(Next(s, e));
    }
  }

  // ----- Capacity -----

  /** With at most 30 handlers between reset and send, queued commands and such handlers together
      never exceed 30, so no send ever fails. */
  lemma {:induction false} CapacitySuffices(es: seq<Event>)
    requires Valid(es) && Bounded(es, CAPACITY)
    ensures |After(es).queue| + |Between(After(es))| <= CAPACITY
    ensures !SomeSendFailed(es)
  {
    if es != [] {
      var s, e := After(Init(es)), Last(es);
      CapacitySuffices(Init(es));
      BetweenNext(s, e);
      if e.Send? {
        assert Between(s) == Between(Next(s, e)) + {e.h};
      }
    }
  }

  /** From a state where queued commands and pending sends exceed 30, the pending sends alone,
      in any order that this lemma picks, lead to a failed send. */
  lemma {:induction false} OverloadFails(es: seq<Event>, n: nat) returns (longer: seq<Event>)
    requires Valid(es) && Bounded(es, n)
    requires |After(es).queue| + |Between(After(es))| > CAPACITY
    requires |After(es).queue| <= CAPACITY
    ensures Valid(longer) && Bounded(longer, n) && SomeSendFailed(longer)
    decreases CAPACITY - |After(es).queue|
  {
    var s := After(es);
    var h :| h in Between(s);
    longer := es + [Send(h)];
    Extend(es, Send(h), n);
    BetweenNext(s, Send(h));
    assert Between(s) == Between(After(longer)) + {h};
    if |s.queue| < CAPACITY {
      longer := OverloadFails(longer, n);
    }
  }

  ghost function Range(k: nat): (r: set<Handler>)
    ensures |r| == k && forall h: Handler :: h in r <==> h < k
  {
    if k == 0 then {} else Range(k - 1) + {k - 1}
  }

  /** `k` connections arrive and every one of them has just emptied the queue. */
  lemma {:induction false} Crowd(k: nat) returns (es: seq<Event>)
    ensures Valid(es) && Bounded(es, k) && After(es).queue == []
    ensures After(es).phase.Keys == Range(k) && Between(After(es)) == Range(k)
  {
    if k == 0 {
      es := [];
    } else {
      var fewer := Crowd(k - 1);
      BoundedWeaken(fewer, k - 1, k);
      es := JoinAndReset(fewer, k - 1, k);
    }
  }

  lemma JoinAndReset(es: seq<Event>, h: Handler, n: nat) returns (longer: seq<Event>)
    requires Valid(es) && Bounded(es, n) && h !in After(es).phase && |Between(After(es))| < n
    ensures Valid(longer) && Bounded(longer, n) && After(longer).queue == []
    ensures After(longer).phase.Keys == After(es).phase.Keys + {h}
    ensures Between(After(longer)) == Between(After(es)) + {h}
  {
    var joined := Join(es, h, n);
    longer := ResetNow(joined, h, n);
  }

  lemma Join(es: seq<Event>, h: Handler, n: nat) returns (longer: seq<Event>)
    requires Valid(es) && Bounded(es, n) && h !in After(es).phase
    ensures Valid(longer) && Bounded(longer, n) && After(longer).phase == After(es).phase[h := Parsing]
    ensures Between(After(longer)) == Between(After(es))
  {
    var join := Accept(h, true, true);
    longer := es + [join];
    BetweenNext(After(es), join);
    Extend(es, join, n);
  }

  lemma ResetNow(es: seq<Event>, h: Handler, n: nat) returns (longer: seq<Event>)
    requires Valid(es) && Bounded(es, n) && InPhase(After(es), h, Parsing) && |Between(After(es))| < n
    ensures Valid(longer) && Bounded(longer, n) && After(longer).queue == []
    ensures After(longer).phase == After(es).phase[h := Cleared]
    ensures Between(After(longer)) == Between(After(es)) + {h}
  {
    longer := es + [Reset(h)];
    BetweenNext(After(es), Reset(h));
    Extend(es, Reset(h), n);
  }

  lemma {:induction false} BoundedWeaken(es: seq<Event>, m: nat, n: nat)
    requires Valid(es) && Bounded(es, m) && m <= n
    ensures Bounded(es, n)
  {
    if es != [] {
      BoundedWeaken(Init(es), m, n);
    }
  }

  /** Over all interleavings, at most `n` handlers between reset and send rule out a failed send. */
  ghost predicate NeverFails(n: nat) {
    forall es :: Valid(es) && Bounded(es, n) ==> !SomeSendFailed(es)
  }

  /** Thirty is exact: a bound on the handlers between reset and send rules out every failed send,
      over all interleavings, if and only if it is at most 30. */
  lemma CapacityExact(n: nat)
    ensures NeverFails(n) <==> n <= 30
  {
    if n <= CAPACITY {
      forall es | Valid(es) && Bounded(es, n) ensures !SomeSendFailed(es) {
        BoundedWeaken(es, n, CAPACITY);
        CapacitySuffices(es);
      }
    } else {
      var crowd := Crowd(CAPACITY + 1);
      BoundedWeaken(crowd, CAPACITY + 1, n);
      var es := OverloadFails(crowd, n);
      assert !(Valid(es) && Bounded(es, n) ==> !SomeSendFailed(es));
    }
  }

  // ----- One consumer -----

  /** The guard creates at most one consumer, and nothing is received without it. */
  lemma {:induction false} SingleConsumer(es: seq<Event>)
    requires Valid(es)
    ensures After(es).consumers <= 1
    ensures After(es).handleSet <==> After(es).consumers == 1
    ensures Received(es) != [] ==> After(es).consumers == 1
  {
    if es != [] {
      SingleConsumer(Init(es));
    }
  }

  // ----- Delivery -----

  ghost predicate Distinct(s: seq<Handler>) {
    forall i, j :: 0 <= i < j < |s| ==> s[i] != s[j]
  }

  /** How many sent commands have left the queue, received or erased. */
  ghost function Head(es: seq<Event>): nat
    requires Valid(es)
  {
    if es == [] then 0
    else if Last(es).Reset? then |Sent(Init(es))|
    else if Last(es).Receive? then Head(Init(es)) + 1
    else Head(Init(es))
  }

  /** The queue is always a suffix of the commands sent. */
  lemma {:induction false} QueueIsSuffix(es: seq<Event>)
    requires Valid(es)
    ensures Head(es) <= |Sent(es)| && After(es).queue == Sent(es)[Head(es)..]
    ensures |After(es).queue| <= CAPACITY
  {
    if es != [] {
      QueueIsSuffix(Init(es));
    }
  }

  /** Every sent command belongs to a finished handler, and none is sent twice. */
  lemma {:induction false} SentDistinct(es: seq<Event>)
    requires Valid(es)
    ensures forall h :: h in Sent(es) ==> InPhase(After(es), h, Finished)
    ensures Distinct(Sent(es))
  {
    if es != [] {
      SentDistinct(Init(es));
      if Last(es).Send? {
        assert Last(es).h !in Sent(Init(es));
      }
    }
  }

  ghost predicate Embeds(part: seq<Handler>, whole: seq<Handler>, at: seq<nat>, limit: nat) {
    && |at| == |part| && limit <= |whole|
    && (forall i :: 0 <= i < |at| ==> at[i] < limit && whole[at[i]] == part[i])
    && (forall i, j :: 0 <= i < j < |at| ==> at[i] < at[j])
  }

  lemma EmbedsNext(part: seq<Handler>, whole: seq<Handler>, at: seq<nat>, limit: nat)
    requires Embeds(part, whole, at, limit) && limit < |whole|
    ensures Embeds(part + [whole[limit]], whole, at + [limit], limit + 1)
  {
  }

  lemma EmbedsMore(part: seq<Handler>, whole: seq<Handler>, longer: seq<Handler>, at: seq<nat>, limit: nat, later: nat)
    requires Embeds(part, whole, at, limit) && whole <= longer && limit <= later <= |longer|
    ensures Embeds(part, longer, at, later)
  {
  }

  /** What is received is a subsequence of what was sent, in the order of sending, all of it from in
      front of the queue. */
  lemma {:induction false} ReceivedInOrder(es: seq<Event>) returns (at: seq<nat>)
    requires Valid(es)
    ensures Head(es) <= |Sent(es)| && Embeds(Received(es), Sent(es), at, Head(es))
  {
    QueueIsSuffix(es);
    if es == [] {
      at := [];
    } else {
      var before := Init(es);
      QueueIsSuffix(before);
      at := ReceivedInOrder(before);
      if Last(es).Receive? {
        assert After(before).queue[0] == Sent(before)[Head(before)];
        EmbedsNext(Received(before), Sent(before), at, Head(before));
        at := at + [Head(before)];
      } else {
        EmbedsMore(Received(before), Sent(before), Sent(es), at, Head(before), Head(es));
      }
    }
  }

  /** Each command is received at most once. */
  lemma ReceivedOnce(es: seq<Event>)
    requires Valid(es)
    ensures Distinct(Received(es))
  {
    var at := ReceivedInOrder(es);
    SentDistinct(es);
    var r, s := Received(es), Sent(es);
    forall i, j | 0 <= i < j < |r| ensures r[i] != r[j] {
      assert at[i] < at[j] && s[at[i]] == r[i] && s[at[j]] == r[j];
    }
  }

  /** At position `p` of the run another handler's reset threw away the queued command `x`. */
  ghost predicate ErasedAt(es: seq<Event>, p: nat, x: Handler)
    requires Valid(es)
  {
    p < |es| && es[p].Reset? && es[p].h != x && Valid(es[..p]) && x in After(es[..p]).queue
  }

  ghost predicate Erased(es: seq<Event>, x: Handler)
    requires Valid(es)
  {
    exists p: nat :: ErasedAt(es, p, x)
  }

  lemma ErasedStays(es: seq<Event>, x: Handler)
    requires Valid(es) && es != [] && Erased(Init(es), x)
    ensures Erased(es, x)
  {
    var p: nat :| ErasedAt(Init(es), p, x);
    assert Init(es)[..p] == es[..p];
    assert ErasedAt(es, p, x);
  }

  /** Every sent command was received, still waits, or was erased by a later reset of another handler. */
  lemma {:induction false} NothingLostSilently(es: seq<Event>, x: Handler)
    requires Valid(es) && x in Sent(es)
    ensures x in Received(es) || x in After(es).queue || Erased(es, x)
  {
    var before, e := Init(es), Last(es);
    var s := After(before);
    if x in Sent(before) {
      NothingLostSilently(before, x);
      if Erased(before, x) {
        ErasedStays(es, x);
      } else if e.Reset? && x in s.queue {
        SentDistinct(before);
        assert es[..|es| - 1] == before;
        assert ErasedAt(es, |es| - 1, x);
      }
    }
  }

  /** A command that reached the consumer is neither waiting nor will it be erased. */
  lemma ReceivedIsOut(es: seq<Event>, x: Handler)
    requires Valid(es) && x in Received(es)
    ensures x in Sent(es) && x !in After(es).queue
  {
    var at := ReceivedInOrder(es);
    QueueIsSuffix(es);
    SentDistinct(es);
    var i :| 0 <= i < |Received(es)| && Received(es)[i] == x;
    var s := Sent(es);
    assert s[at[i]] == x;
    forall k | 0 <= k < |After(es).queue| ensures After(es).queue[k] != x {
      assert After(es).queue[k] == s[Head(es) + k];
    }
  }

  /** An erased command has left for good: it is neither waiting nor ever received. */
  lemma {:induction false} ErasedIsGone(es: seq<Event>, x: Handler)
    requires Valid(es) && Erased(es, x)
    ensures x in Sent(es) && x !in After(es).queue && x !in Received(es)
  {
    var p: nat :| ErasedAt(es, p, x);
    var before := Init(es);
    if p < |before| {
      assert before[..p] == es[..p];
      assert ErasedAt(before, p, x);
      ErasedIsGone(before, x);
      GoneStaysGone(es, x);
    } else {
      assert es[..p] == before;
      WaitingNotReceived(before, x);
    }
  }

  lemma GoneStaysGone(es: seq<Event>, x: Handler)
    requires Valid(es) && es != [] && x in Sent(Init(es)) && x !in After(Init(es)).queue && x !in Received(Init(es))
    ensures x in Sent(es) && x !in After(es).queue && x !in Received(es)
  {
    SentDistinct(Init(es));
  }

  lemma WaitingNotReceived(es: seq<Event>, x: Handler)
    requires Valid(es) && x in After(es).queue
    ensures x in Sent(es) && x !in Received(es)
  {
    QueueIsSuffix(es);
    if x in Received(es) {
      ReceivedIsOut(es, x);
    }
  }

  /** Conservation: every sent command meets exactly one of three fates. */
  lemma OneFate(es: seq<Event>, x: Handler)
    requires Valid(es) && x in Sent(es)
    ensures x in Received(es) <==> x !in After(es).queue && !Erased(es, x)
    ensures x in After(es).queue ==> !Erased(es, x)
  {
    NothingLostSilently(es, x);
    if x in Received(es) {
      ReceivedIsOut(es, x);
    }
    if Erased(es, x) {
      ErasedIsGone(es, x);
    }
  }

  ghost predicate Quiescent(s: State) {
    s.queue == [] && forall h :: h in s.phase ==> s.phase[h] == Finished
  }

  /** `longer` continues `es` without another reset. */
  ghost predicate Continues(es: seq<Event>, longer: seq<Event>) {
    es <= longer && forall k :: |es| <= k < |longer| ==> !longer[k].Reset?
  }

  lemma ContinuesInit(es: seq<Event>, longer: seq<Event>)
    requires Continues(es, longer) && |es| < |longer|
    ensures Continues(es, Init(longer)) && !Last(longer).Reset?
  {
  }

  /** From its reset on, and until somebody else resets, a handler's command is about to be sent,
      waits or has been received, provided fewer than 30 others were between reset and send. */
  lemma {:induction false} SinceReset(es: seq<Event>, h: Handler, longer: seq<Event>)
    requires Valid(es) && InPhase(After(es), h, Parsing) && |Between(After(es))| < CAPACITY
    requires Valid(longer) && Continues(es + [Reset(h)], longer)
    ensures |After(longer).queue| + |Between(After(longer))| <= CAPACITY
    ensures InPhase(After(longer), h, Cleared) || h in After(longer).queue || h in Received(longer)
    decreases |longer|
  {
    var start := es + [Reset(h)];
    if |longer| == |start| {
      assert longer == start;
      Extend(es, Reset(h), 0);
      BetweenNext(After(es), Reset(h));
    } else {
      var before, e := Init(longer), Last(longer);
      ContinuesInit(start, longer);
      SinceReset(es, h, before);
      FateNext(After(before), e, h);
      assert Received(before) <= Received(longer);
    }
  }

  lemma FateNext(s: State, e: Event, h: Handler)
    requires Enabled(s, e) && !e.Reset? && |s.queue| + |Between(s)| <= CAPACITY
    ensures |Next(s, e).queue| + |Between(Next(s, e))| <= CAPACITY
    ensures InPhase(s, h, Cleared) ==> InPhase(Next(s, e), h, Cleared) || h in Next(s, e).queue
    ensures h in s.queue ==> h in Next(s, e).queue || (e.Receive? && s.queue[0] == h)
  {
    BetweenNext(s, e);
    if e.Send? {
      assert Between(s) == Between(Next(s, e)) + {e.h};
      assert Next(s, e).queue == s.queue + [e.h];
    }
  }

  /** When all handlers have finished and the queue has drained, the command of the handler that
      reset last has been received, if fewer than 30 others were between reset and send just then. */
  lemma LastResetDelivered(es: seq<Event>, h: Handler, longer: seq<Event>)
    requires Valid(es) && InPhase(After(es), h, Parsing) && |Between(After(es))| < CAPACITY
    requires Valid(longer) && Continues(es + [Reset(h)], longer) && Quiescent(After(longer))
    ensures h in Received(longer)
  {
    SinceReset(es, h, longer);
  }

  /** As long as nobody is between reset and send, an empty queue means that the newest command
      was the last one received. */
  lemma {:induction false} NewestReceivedLast(es: seq<Event>)
    requires Valid(es) && Sent(es) != [] && After(es).queue == [] && Between(After(es)) == {}
    ensures Received(es) != [] && Last(Received(es)) == Last(Sent(es))
  {
    var before, e := Init(es), Last(es);
    var s := After(before);
    BetweenNext(s, e);
    QueueIsSuffix(before);
    if e.Receive? {
      assert s.queue == [s.queue[0]];
    } else if !e.Reset? && !e.Send? {
      NewestReceivedLast(before);
    }
  }

  /** At rest, the last command that the consumer executed is the one sent last, whichever handler
      reset last. */
  lemma LastSenderWins(es: seq<Event>)
    requires Valid(es) && Quiescent(After(es)) && Sent(es) != []
    ensures Received(es) != [] && Last(Received(es)) == Last(Sent(es))
  {
    NewestReceivedLast(es);
  }

  // ----- When is the last reset decisive? -----

  lemma {:induction false} FreshHandler(used: set<Handler>) returns (h: Handler)
    ensures h !in used && forall x :: x in used ==> x < h
    decreases |used|
  {
    if used == {} {
      h := 0;
    } else {
      var x :| x in used;
      var g := FreshHandler(used - {x});
      h := if x < g then g else x + 1;
      assert forall y :: y in used ==> y == x || y in used - {x};
    }
  }

  lemma ContinuesTo(es: seq<Event>, mid: seq<Event>, longer: seq<Event>)
    requires Continues(es, mid) && Continues(mid, longer)
    ensures Continues(es, longer)
  {
  }

  /** Another connection makes sure that there is a consumer, and changes nothing else. */
  lemma EnsureConsumer(es: seq<Event>) returns (longer: seq<Event>)
    requires Valid(es)
    ensures Valid(longer) && Continues(es, longer) && Sent(longer) == Sent(es)
    ensures After(longer).consumers > 0
    ensures After(longer).phase == After(es).phase && After(longer).queue == After(es).queue
  {
    longer := es;
    SingleConsumer(es);
    if After(es).consumers == 0 {
      var h := FreshHandler(After(es).phase.Keys);
      longer := es + [Accept(h, true, false)];
      Extend(es, Accept(h, true, false), 0);
    }
  }

  ghost function Unfinished(s: State): set<Handler> {
    set h | h in s.phase && s.phase[h] != Finished
  }

  /** One handler runs to its end: it aborts if it is still parsing and sends if it has reset. */
  lemma FinishOne(es: seq<Event>, x: Handler) returns (next: seq<Event>)
    requires Valid(es) && x in Unfinished(After(es))
    ensures Valid(next) && Continues(es, next) && |next| == |es| + 1
    ensures After(next).consumers == After(es).consumers && After(next).phase == After(es).phase[x := Finished]
    ensures Unfinished(After(next)) == Unfinished(After(es)) - {x}
    ensures forall y :: y in Sent(next) ==> y in Sent(es) || y == x
  {
    var e := if After(es).phase[x] == Parsing then Abort(x) else Send(x);
    next := es + [e];
    Extend(es, e, 0);
  }

  /** Every handler outside `keep` runs to its end; nobody resets. */
  lemma {:induction false} FinishOthers(es: seq<Event>, keep: set<Handler>) returns (longer: seq<Event>)
    requires Valid(es)
    ensures Valid(longer) && Continues(es, longer) && After(longer).consumers == After(es).consumers
    ensures Unfinished(After(longer)) <= keep
    ensures forall h :: h in keep && h in After(es).phase ==> InPhase(After(longer), h, After(es).phase[h])
    ensures forall x :: x in Sent(longer) ==> x in Sent(es) || x in Unfinished(After(es)) - keep
    decreases |Unfinished(After(es)) - keep|
  {
    var busy := Unfinished(After(es)) - keep;
    if busy == {} {
      longer := es;
      assert Unfinished(After(es)) <= keep + busy;
    } else {
      var x :| x in busy;
      var next := FinishOne(es, x);
      assert Unfinished(After(next)) - keep == busy - {x};
      longer := FinishOthers(next, keep);
      ContinuesTo(es, next, longer);
    }
  }

  /** The consumer empties the queue. */
  lemma {:induction false} Drain(es: seq<Event>) returns (longer: seq<Event>)
    requires Valid(es) && After(es).consumers > 0
    ensures Valid(longer) && Continues(es, longer) && Sent(longer) == Sent(es)
    ensures After(longer) == After(es).(queue := [])
    decreases |After(es).queue|
  {
    if After(es).queue == [] {
      longer := es;
    } else {
      Extend(es, Receive, 0);
      longer := Drain(es + [Receive]);
    }
  }

  /** A consumer, all handlers outside `keep` finished, an empty queue; nobody resets. */
  lemma RestExcept(es: seq<Event>, keep: set<Handler>) returns (longer: seq<Event>)
    requires Valid(es)
    ensures Valid(longer) && Continues(es, longer) && After(longer).consumers > 0 && After(longer).queue == []
    ensures forall h :: h in After(longer).phase && h !in keep ==> InPhase(After(longer), h, Finished)
    ensures forall h :: h in keep && h in After(es).phase ==> InPhase(After(longer), h, After(es).phase[h])
    ensures forall x :: x in Sent(longer) ==> x in Sent(es) || x in Unfinished(After(es)) - keep
  {
    var a := EnsureConsumer(es);
    var b := FinishOthers(a, keep);
    ContinuesTo(es, a, b);
    longer := Drain(b);
    ContinuesTo(es, b, longer);
    forall h | h in After(longer).phase && h !in keep ensures InPhase(After(longer), h, Finished) {
      assert h !in Unfinished(After(b));
    }
  }

  /** A run comes to rest with `g` sending, and being executed, after everybody else. */
  lemma LetLast(es: seq<Event>, g: Handler) returns (longer: seq<Event>)
    requires Valid(es) && InPhase(After(es), g, Cleared)
    ensures Valid(longer) && Continues(es, longer) && Quiescent(After(longer))
    ensures Received(longer) != [] && Last(Received(longer)) == g
  {
    var rest := RestExcept(es, {g});
    longer := SendAndDrain(rest, g);
    ContinuesTo(es, rest, longer);
  }

  lemma SendAndDrain(es: seq<Event>, g: Handler) returns (longer: seq<Event>)
    requires Valid(es) && InPhase(After(es), g, Cleared) && After(es).consumers > 0 && After(es).queue == []
    requires forall h :: h in After(es).phase && h != g ==> InPhase(After(es), h, Finished)
    ensures Valid(longer) && Continues(es, longer) && Quiescent(After(longer))
    ensures Received(longer) != [] && Last(Received(longer)) == g
  {
    var sent := SendNow(es, g);
    longer := Drain(sent);
    ContinuesTo(es, sent, longer);
    LastSenderWins(longer);
  }

  lemma SendNow(es: seq<Event>, g: Handler) returns (next: seq<Event>)
    requires Valid(es) && InPhase(After(es), g, Cleared) && After(es).queue == []
    ensures Valid(next) && Continues(es, next) && Sent(next) == Sent(es) + [g]
    ensures After(next).consumers == After(es).consumers && After(next).phase == After(es).phase[g := Finished]
  {
    next := es + [Send(g)];
    Extend(es, Send(g), 0);
  }

  /** Every continuation of `h`'s reset without another reset that comes to rest executes `h`'s command last. */
  ghost predicate SurelyLast(es: seq<Event>, h: Handler)
    requires Valid(es) && InPhase(After(es), h, Parsing)
  {
    forall longer :: Valid(longer) && Continues(es + [Reset(h)], longer) && Quiescent(After(longer)) ==>
      Received(longer) != [] && Last(Received(longer)) == h
  }

  /** Alone between reset and send, a handler stays so until it sends, and then is the last to have sent. */
  lemma {:induction false} AloneSinceReset(es: seq<Event>, h: Handler, longer: seq<Event>)
    requires Valid(es) && InPhase(After(es), h, Parsing) && Between(After(es)) == {}
    requires Valid(longer) && Continues(es + [Reset(h)], longer)
    ensures if Between(After(longer)) == {} then Sent(longer) != [] && Last(Sent(longer)) == h
            else Between(After(longer)) == {h} && After(longer).queue == []
    decreases |longer|
  {
    var start := es + [Reset(h)];
    if |longer| == |start| {
      assert longer == start;
      Extend(es, Reset(h), 0);
      BetweenNext(After(es), Reset(h));
    } else {
      var before, e := Init(longer), Last(longer);
      ContinuesInit(start, longer);
      AloneSinceReset(es, h, before);
      BetweenNext(After(before), e);
    }
  }

  /** The handler that resets last is sure to be executed last, over all interleavings that follow,
      if and only if no other handler is between reset and send when it resets. */
  lemma ExecutedLastIff(es: seq<Event>, h: Handler)
    requires Valid(es) && InPhase(After(es), h, Parsing)
    ensures SurelyLast(es, h) <==> Between(After(es)) == {}
  {
    var start := es + [Reset(h)];
    if Between(After(es)) == {} {
      forall longer | Valid(longer) && Continues(start, longer) && Quiescent(After(longer))
        ensures Received(longer) != [] && Last(Received(longer)) == h
      {
        AloneSinceReset(es, h, longer);
        assert Between(After(longer)) == {};
        LastSenderWins(longer);
      }
    } else {
      var g :| g in Between(After(es));
      var longer := Overtaken(es, h, g);
    }
  }

  /** Whoever is between reset and send when `h` resets can be executed after `h`. */
  lemma Overtaken(es: seq<Event>, h: Handler, g: Handler) returns (longer: seq<Event>)
    requires Valid(es) && InPhase(After(es), h, Parsing) && g in Between(After(es))
    ensures Valid(longer) && Continues(es + [Reset(h)], longer) && Quiescent(After(longer))
    ensures g != h && Received(longer) != [] && Last(Received(longer)) == g
  {
    Extend(es, Reset(h), 0);
    longer := LetLast(es + [Reset(h)], g);
  }

  /** Every continuation of `h`'s reset without another reset that comes to rest delivers `h`'s command. */
  ghost predicate SurelyDelivered(es: seq<Event>, h: Handler)
    requires Valid(es) && InPhase(After(es), h, Parsing)
  {
    forall longer :: Valid(longer) && Continues(es + [Reset(h)], longer) && Quiescent(After(longer)) ==>
      h in Received(longer)
  }

  /** Handlers other than `h` send until the queue is full. */
  lemma {:induction false} FillQueue(es: seq<Event>, h: Handler) returns (longer: seq<Event>)
    requires Valid(es) && InPhase(After(es), h, Cleared) && h !in Sent(es)
    requires |After(es).queue| <= CAPACITY <= |After(es).queue| + |Between(After(es)) - {h}|
    ensures Valid(longer) && Continues(es, longer) && |After(longer).queue| == CAPACITY
    ensures InPhase(After(longer), h, Cleared) && h !in Sent(longer)
    decreases CAPACITY - |After(es).queue|
  {
    var s := After(es);
    if |s.queue| == CAPACITY {
      longer := es;
    } else {
      var others := Between(s) - {h};
      var x :| x in others;
      var next := es + [Send(x)];
      Extend(es, Send(x), 0);
      BetweenNext(s, Send(x));
      assert Between(After(next)) - {h} == others - {x};
      longer := FillQueue(next, h);
    }
  }

  /** With 30 others between reset and send, `h`'s command can be turned away by a full queue. */
  lemma TurnedAway(es: seq<Event>, h: Handler) returns (longer: seq<Event>)
    requires Valid(es) && InPhase(After(es), h, Parsing) && |Between(After(es))| >= CAPACITY
    ensures Valid(longer) && Continues(es + [Reset(h)], longer) && Quiescent(After(longer))
    ensures h !in Received(longer)
  {
    var start := es + [Reset(h)];
    Extend(es, Reset(h), 0);
    BetweenNext(After(es), Reset(h));
    assert Between(After(start)) - {h} == Between(After(es));
    SentDistinct(es);
    var full := FillQueue(start, h);
    var failed := full + [Send(h)];
    Extend(full, Send(h), 0);
    ContinuesTo(start, full, failed);
    longer := RestExcept(failed, {});
    ContinuesTo(start, failed, longer);
    if h in Received(longer) {
      ReceivedIsOut(longer, h);
    }
  }

  /** The command of the handler that resets last is sure to be delivered, over all interleavings
      that follow, if and only if fewer than 30 others are between reset and send when it resets. */
  lemma DeliveredIff(es: seq<Event>, h: Handler)
    requires Valid(es) && InPhase(After(es), h, Parsing)
    ensures SurelyDelivered(es, h) <==> |Between(After(es))| < 30
  {
    if |Between(After(es))| < CAPACITY {
      forall longer | Valid(longer) && Continues(es + [Reset(h)], longer) && Quiescent(After(longer))
        ensures h in Received(longer)
      {
        LastResetDelivered(es, h, longer);
      }
    } else {
      var longer := TurnedAway(es, h);
    }
  }

  /** A concrete such run: handler 1 clears the mailbox after handler 0,
      yet handler 0's command is executed after it. */
  lemma OvertakenAfterReset() returns (es: seq<Event>)
    ensures Valid(es) && Bounded(es, 2) && Quiescent(After(es))
    ensures |es| == 8 && es[2] == Reset(0) && es[3] == Reset(1) && forall k :: 3 < k < |es| ==> !es[k].Reset?
    ensures Received(es) == [1, 0]
  {
    es := BothSent();
    es := Then(es, Receive);
    es := Then(es, Receive);
  }

  lemma BothReset() returns (es: seq<Event>)
    ensures es == [Accept(0, true, true), Accept(1, true, true), Reset(0), Reset(1)]
    ensures Valid(es) && Bounded(es, 2) && Sent(es) == [] && Received(es) == []
    ensures After(es) == State(1, true, map[0 := Cleared, 1 := Cleared], [])
  {
    es := [];
    es := Then(es, Accept(0, true, true));
    es := Then(es, Accept(1, true, true));
    es := Then(es, Reset(0));
    es := Then(es, Reset(1));
  }

  lemma BothSent() returns (es: seq<Event>)
    ensures es == [Accept(0, true, true), Accept(1, true, true), Reset(0), Reset(1), Send(1), Send(0)]
    ensures Valid(es) && Bounded(es, 2) && Received(es) == []
    ensures After(es) == State(1, true, map[0 := Finished, 1 := Finished], [1, 0])
  {
    es := BothReset();
    es := Then(es, Send(1));
    es := Then(es, Send(0));
  }

  lemma Then(es: seq<Event>, e: Event) returns (r: seq<Event>)
    requires Valid(es) && Bounded(es, 2) && Enabled(After(es), e)
    requires Next(After(es), e).phase.Keys <= {0, 1}
    ensures r == es + [e] && Valid(r) && Bounded(r, 2) && After(r) == Next(After(es), e)
    ensures Sent(r) == if e.Send? && !SendFails(After(es), e) then Sent(es) + [e.h] else Sent(es)
    ensures Received(r) == if e.Receive? then Received(es) + [After(es).queue[0]] else Received(es)
  {
    r := es + [e];
    var b := Between(Next(After(es), e));
    assert {0, 1} == b + ({0, 1} - b);
    Extend(es, e, 2);
  }
}
