/**
  The queue in front of the metadata export: inferences are collected per model in a fixed array of
  slots and handed over once the configured number per message has been accepted.
 */
module InferenceQueue {
  import opened Arithmetic
  import opened Basics

  const CAPACITY: nat := 100

  /** One entry of the "Inferences" array: its timestamp and the rest of it. */
  datatype Inference = Inference(timestamp: nat, payload: string)

  /** A formatted message: a model and at least one inference. */
  datatype Message = Message(model: string, first: Inference, more: seq<Inference>) {
    function All(): seq<Inference> {
      [first] + more
    }
  }

  /** What is passed to the data export. */
  datatype Delivery = Delivery(inferences: seq<Inference>, timestamp: nat)

  // ------------------------------------------------------------------ groups

  function IndexOf(groups: seq<Message>, model: string): (i: nat)
    ensures i <= |groups|
    ensures i < |groups| ==> groups[i].model == model
    ensures forall j | 0 <= j < i :: groups[j].model != model
  {
    if groups == [] || groups[0].model == model then 0 else 1 + IndexOf(groups[1..], model)
  }

  /** A message for a new model becomes its group; a later one adds its first inference to the group. */
  function Added(groups: seq<Message>, m: Message): seq<Message> {
    var i := IndexOf(groups, m.model);
    if i == |groups| then groups + [m] else groups[i := groups[i].(more := groups[i].more + [m.first])]
  }

  /** The groups formed by messages accepted in that order. */
  function Grouped(pending: History<Message>): seq<Message> {
    if pending.Nothing? then [] else Added(Grouped(pending.before), pending.last)
  }

  /** The models of the messages, each once, in order of first appearance. */
  function FirstAppearances(pending: History<Message>): seq<string> {
    if pending.Nothing? then []
    else
      var before, model := FirstAppearances(pending.before), pending.last.model;
      if model in before then before else before + [model]
  }

  /** The inferences of `model`, in order of arrival. */
  function InferencesOf(pending: History<Message>, model: string): seq<Inference> {
    if pending.Nothing? then []
    else InferencesOf(pending.before, model) + if pending.last.model == model then pending.last.All() else []
  }

  predicate SingleInference(pending: History<Message>) {
    pending.Then? ==> pending.last.more == [] && SingleInference(pending.before)
  }

  ghost predicate DistinctModels(groups: seq<Message>) {
    forall i, j | 0 <= i < j < |groups| :: groups[i].model != groups[j].model
  }

  function Models(groups: seq<Message>): seq<string> {
    seq(|groups|, i requires 0 <= i < |groups| => groups[i].model)
  }

  /** One group per distinct model, in order of first appearance, and so at most one per message. */
  lemma {:induction false} GroupsByFirstAppearance(pending: History<Message>)
    ensures Models(Grouped(pending)) == FirstAppearances(pending)
    ensures DistinctModels(Grouped(pending)) && |Grouped(pending)| <= pending.Count()
  {
    if pending.Then? {
      var g, m := Grouped(pending.before), pending.last;
      GroupsByFirstAppearance(pending.before);
      var i := IndexOf(g, m.model);
      if i < |g| {
        assert Models(g)[i] == m.model;
        assert Models(Added(g, m)) == Models(g);
      } else {
        assert m.model !in Models(g);
        assert Models(Added(g, m)) == Models(g) + [m.model];
      }
    }
  }

  /** While every message holds one inference, a group holds its model's inferences in order of arrival. */
  lemma {:induction false} GroupsHoldArrivals(pending: History<Message>)
    requires SingleInference(pending)
    ensures forall g | g in Grouped(pending) :: g.All() == InferencesOf(pending, g.model)
  {
    if pending.Then? {
      var g, m := Grouped(pending.before), pending.last;
      GroupsHoldArrivals(pending.before);
      GroupsByFirstAppearance(pending.before);
      assert m.All() == [m.first];
      var i := IndexOf(g, m.model);
      if i == |g| {
        assert m.model !in Models(g);
        NoArrivals(pending.before, m.model);
      } else {
        assert Added(g, m)[i].All() == g[i].All() + [m.first];
        assert forall j | 0 <= j < |g| && j != i :: Added(g, m)[j] == g[j] && g[j] in g && g[j].model != m.model;
      }
    }
  }

  lemma {:induction false} NoArrivals(pending: History<Message>, model: string)
    requires model !in FirstAppearances(pending)
    ensures InferencesOf(pending, model) == []
  {
    if pending.Then? {
      NoArrivals(pending.before, model);
    }
  }

  // ------------------------------------------------------------------ what groups keep

  function InferencesIn(messages: History<Message>): multiset<Inference> {
    if messages.Nothing? then multiset{} else InferencesIn(messages.before) + multiset(messages.last.All())
  }

  function Held(groups: seq<Message>): multiset<Inference> {
    if groups == [] then multiset{} else Held(groups[..|groups| - 1]) + multiset(groups[|groups| - 1].All())
  }

  lemma {:induction false} HeldAfterUpdate(groups: seq<Message>, i: nat, g: Message, inf: Inference)
    requires i < |groups| && multiset(g.All()) == multiset(groups[i].All()) + multiset{inf}
    ensures Held(groups[i := g]) == Held(groups) + multiset{inf}
  {
    var n := |groups| - 1;
    if i == n {
      assert groups[i := g][..n] == groups[..n];
    } else {
      HeldAfterUpdate(groups[..n], i, g, inf);
      assert groups[i := g][..n] == groups[..n][i := g];
    }
  }

  lemma AddedHolds(groups: seq<Message>, m: Message)
    ensures Held(Added(groups, m)) == Held(groups) + if IndexOf(groups, m.model) == |groups| then multiset(m.All()) else multiset{m.first}
  {
    var i := IndexOf(groups, m.model);
    if i == |groups| {
      assert (groups + [m])[..|groups|] == groups;
    } else {
      var bigger := groups[i].(more := groups[i].more + [m.first]);
      assert bigger.All() == groups[i].All() + [m.first];
      HeldAfterUpdate(groups, i, bigger, m.first);
    }
  }

  /**
    Adding keeps every inference of the message exactly when the message holds a single one or is the
    first of its model: later messages of a model lose all but their first inference.
   */
  lemma AddedKeepsAllIff(groups: seq<Message>, m: Message)
    ensures Held(Added(groups, m)) == Held(groups) + multiset(m.All())
            <==> m.more == [] || IndexOf(groups, m.model) == |groups|
  {
    AddedHolds(groups, m);
    SameSumIff(Held(groups), m.first, m.more);
  }

  lemma SameSumIff(held: multiset<Inference>, first: Inference, more: seq<Inference>)
    ensures held + multiset{first} == held + multiset([first] + more) <==> more == []
  {
    if more != [] {
      assert |held + multiset([first] + more)| == |held| + 1 + |more|;
      assert |held + multiset{first}| == |held| + 1;
    } else {
      assert [first] + more == [first];
    }
  }

  lemma {:induction false} GroupedKeepsAll(pending: History<Message>)
    requires SingleInference(pending)
    ensures Held(Grouped(pending)) == InferencesIn(pending)
  {
    if pending.Then? {
      GroupedKeepsAll(pending.before);
      AddedKeepsAllIff(Grouped(pending.before), pending.last);
    }
  }

  lemma {:induction false} OneEach(messages: History<Message>)
    requires SingleInference(messages)
    ensures |InferencesIn(messages)| == messages.Count()
  {
    if messages.Then? {
      OneEach(messages.before);
    }
  }

  /** The sizes of the groups add up to the number of messages that wait. */
  lemma GroupSizesAddUp(pending: History<Message>)
    requires SingleInference(pending)
    ensures |Held(Grouped(pending))| == pending.Count()
  {
    GroupedKeepsAll(pending);
    OneEach(pending);
  }

  // ------------------------------------------------------------------ runs

  /** A call with a formatted message, and the two readings of the configured number per message. */
  datatype Call = Call(message: Message, timestamp: nat, direct: uint32, threshold: uint32)

  /** What waits and what was handed to the export, between calls. */
  datatype State = State(pending: History<Message>, sent: History<Delivery>)

  /** `sent`, and then the groups, each under the timestamp of its first inference. */
  function SendAll(sent: History<Delivery>, groups: seq<Message>): History<Delivery> {
    if groups == [] then sent
    else
      var g := groups[|groups| - 1];
      Then(SendAll(sent, groups[..|groups| - 1]), Delivery(g.All(), g.first.timestamp))
  }

  /** The message finds its group or a free slot, or does not need one. */
  predicate Accepts(s: State, c: Call) {
    c.direct == 1 || IndexOf(Grouped(s.pending), c.message.model) < CAPACITY
  }

  function Next(s: State, c: Call): State {
    if !Accepts(s, c) then s
    else if c.direct == 1 then s.(sent := Then(s.sent, Delivery(c.message.All(), c.timestamp)))
    else if s.pending.Count() + 1 < c.threshold then s.(pending := Then(s.pending, c.message))
    else State(Nothing, SendAll(s.sent, Grouped(Then(s.pending, c.message))))
  }

  function Run(calls: History<Call>): State {
    if calls.Nothing? then State(Nothing, Nothing) else Next(Run(calls.before), calls.last)
  }

  /** The messages of the calls that were accepted. */
  function Accepted(calls: History<Call>): History<Message> {
    if calls.Nothing? then Nothing
    else if Accepts(Run(calls.before), calls.last) then Then(Accepted(calls.before), calls.last.message)
    else Accepted(calls.before)
  }

  function Messages(calls: History<Call>): (m: History<Message>)
    ensures m.Count() == calls.Count()
  {
    if calls.Nothing? then Nothing else Then(Messages(calls.before), calls.last.message)
  }

  function Delivered(sent: History<Delivery>): multiset<Inference> {
    if sent.Nothing? then multiset{} else Delivered(sent.before) + multiset(sent.last.inferences)
  }

  lemma {:induction false} DeliveredBySendAll(sent: History<Delivery>, groups: seq<Message>)
    ensures Delivered(SendAll(sent, groups)) == Delivered(sent) + Held(groups)
  {
    if groups != [] {
      DeliveredBySendAll(sent, groups[..|groups| - 1]);
    }
  }

  /** Everything in the state: delivered, or in a group that waits. */
  function Everything(s: State): multiset<Inference> {
    Delivered(s.sent) + Held(Grouped(s.pending))
  }

  /** The model of the message has a group, which takes only the first inference of it. */
  predicate Loses(s: State, c: Call) {
    && Accepts(s, c) && c.direct != 1 && c.message.more != []
    && IndexOf(Grouped(s.pending), c.message.model) < |Grouped(s.pending)|
  }

  /** What an accepted call adds. */
  function Kept(s: State, c: Call): multiset<Inference> {
    if Loses(s, c) then multiset{c.message.first} else multiset(c.message.All())
  }

  /** What adding a message adds is what is kept of it. */
  lemma KeptIs(s: State, c: Call)
    requires Accepts(s, c) && c.direct != 1
    ensures var groups := Grouped(s.pending);
      Kept(s, c) == if IndexOf(groups, c.message.model) == |groups| then multiset(c.message.All()) else multiset{c.message.first}
  {
    if c.message.more == [] {
      assert c.message.All() == [c.message.first];
    }
  }

  lemma WaitingAdds(s: State, c: Call)
    requires Accepts(s, c) && c.direct != 1
    ensures Held(Grouped(Then(s.pending, c.message))) == Held(Grouped(s.pending)) + Kept(s, c)
  {
    KeptIs(s, c);
    AddedHolds(Grouped(s.pending), c.message);
  }

  /** An accepted call adds what it keeps, whether it sends, waits, or sends everything that waits. */
  lemma NextAdds(s: State, c: Call)
    requires Accepts(s, c)
    ensures Everything(Next(s, c)) == Everything(s) + Kept(s, c)
  {
    if c.direct != 1 {
      WaitingAdds(s, c);
      DeliveredBySendAll(s.sent, Grouped(Then(s.pending, c.message)));
    }
  }

  lemma KeptIsAllIff(s: State, c: Call)
    ensures Kept(s, c) <= multiset(c.message.All())
    ensures Kept(s, c) == multiset(c.message.All()) <==> !Loses(s, c)
  {
    var m := c.message;
    assert multiset(m.All()) == multiset{m.first} + multiset(m.more);
    if Loses(s, c) {
      assert |multiset(m.All())| == 1 + |m.more|;
      assert |Kept(s, c)| == 1;
    }
  }

  lemma SumsEqualIff(a: multiset<Inference>, b: multiset<Inference>, x: multiset<Inference>, y: multiset<Inference>)
    requires a <= b && x <= y
    ensures a + x <= b + y
    ensures a + x == b + y <==> a == b && x == y
  {
    if a + x == b + y {
      forall i ensures a[i] == b[i] && x[i] == y[i] {
        assert (a + x)[i] == (b + y)[i];
      }
    }
  }

  /** No accepted call brings further inferences to a group that waits. */
  predicate NeverLoses(calls: History<Call>) {
    calls.Then? ==> NeverLoses(calls.before) && !Loses(Run(calls.before), calls.last)
  }

  /**
    Over every run of calls, with any and changing numbers per message: nothing was handed to the
    export, or waits, that was not accepted, nor twice; and every accepted inference was handed over or
    waits iff no call brought several inferences for a model that already waited.
   */
  lemma {:induction false} HandedOverIff(calls: History<Call>)
    ensures Everything(Run(calls)) <= InferencesIn(Accepted(calls))
    ensures Everything(Run(calls)) == InferencesIn(Accepted(calls)) <==> NeverLoses(calls)
  {
    if calls.Then? {
      HandedOverIff(calls.before);
      var s, c := Run(calls.before), calls.last;
      if Accepts(s, c) {
        NextAdds(s, c);
        KeptIsAllIff(s, c);
        SumsEqualIff(Everything(s), InferencesIn(Accepted(calls.before)), Kept(s, c), multiset(c.message.All()));
      }
    }
  }

  lemma {:induction false} SingleNeverLoses(calls: History<Call>)
    requires SingleInference(Messages(calls))
    ensures NeverLoses(calls)
  {
    if calls.Then? {
      SingleNeverLoses(calls.before);
    }
  }

  /** The formatter makes messages of one inference: each accepted one is handed over exactly once or still waits. */
  lemma HandedOverExactlyOnce(calls: History<Call>)
    requires SingleInference(Messages(calls))
    ensures Everything(Run(calls)) == InferencesIn(Accepted(calls))
  {
    SingleNeverLoses(calls);
    HandedOverIff(calls);
  }

  // ------------------------------------------------------------------ capacity

  predicate WithinCapacity(calls: History<Call>) {
    calls.Then? ==> calls.last.threshold <= CAPACITY && WithinCapacity(calls.before)
  }

  /** While the number per message never exceeds the capacity, no call finds the queue full. */
  lemma {:induction false} NeverFull(calls: History<Call>)
    requires WithinCapacity(calls)
    ensures Accepted(calls) == Messages(calls) && Run(calls).pending.Count() < CAPACITY
  {
    if calls.Then? {
      NeverFull(calls.before);
      GroupsByFirstAppearance(Run(calls.before).pending);
    }
  }

  predicate Collecting(calls: History<Call>, n: nat) {
    calls.Then? ==> calls.last.direct != 1 && calls.last.threshold == n && Collecting(calls.before, n)
  }

  lemma {:induction false} CollectingWithin(calls: History<Call>, n: nat)
    requires Collecting(calls, n) && n <= CAPACITY
    ensures WithinCapacity(calls)
  {
    if calls.Then? {
      CollectingWithin(calls.before, n);
    }
  }

  function ModelName(k: nat): (name: string)
    ensures |name| == k
  {
    seq(k, _ => 'm')
  }

  /** Calls for distinct models. */
  function DistinctCalls(k: nat, n: uint32): History<Call> {
    if k == 0 then Nothing
    else Then(DistinctCalls(k - 1, n), Call(Message(ModelName(k), Inference(0, ""), []), 0, 0, n))
  }

  ghost predicate ShortNames(groups: seq<Message>, k: nat) {
    forall i | 0 <= i < |groups| :: |groups[i].model| <= k
  }

  lemma NewModelAdded(groups: seq<Message>, m: Message, k: nat)
    requires ShortNames(groups, k) && |m.model| == k + 1
    ensures IndexOf(groups, m.model) == |groups|
    ensures Added(groups, m) == groups + [m] && ShortNames(Added(groups, m), k + 1)
  {
  }

  /** Without a flush they fill one slot each. */
  lemma {:induction false} DistinctCallsFill(k: nat, n: uint32)
    requires k <= CAPACITY < n
    ensures Collecting(DistinctCalls(k, n), n)
    ensures var s := Run(DistinctCalls(k, n));
            s.pending.Count() == |Grouped(s.pending)| == k && ShortNames(Grouped(s.pending), k)
  {
    if k != 0 {
      DistinctCallsFill(k - 1, n);
      var s, c := Run(DistinctCalls(k - 1, n)), DistinctCalls(k, n).last;
      NewModelAdded(Grouped(s.pending), c.message, k - 1);
      assert Run(DistinctCalls(k, n)) == State(Then(s.pending, c.message), s.sent);
    }
  }

  ghost predicate SafeThreshold(n: uint32) {
    forall calls: History<Call> :: Collecting(calls, n) ==> Accepted(calls) == Messages(calls)
  }

  /** A fixed number per message is safe for every run of collected calls exactly up to the capacity. */
  lemma SafeThresholdIff(n: uint32)
    ensures SafeThreshold(n) <==> n <= 100
  {
    if n <= CAPACITY {
      forall calls: History<Call> | Collecting(calls, n)
        ensures Accepted(calls) == Messages(calls)
      {
        CollectingWithin(calls, n);
        NeverFull(calls);
      }
    } else {
      RefusedBeyondCapacity(n);
    }
  }

  lemma RefusedBeyondCapacity(n: uint32)
    requires CAPACITY < n
    ensures !SafeThreshold(n)
  {
    var before, calls := DistinctCalls(CAPACITY, n), DistinctCalls(CAPACITY + 1, n);
    DistinctCallsFill(CAPACITY, n);
    NewModelAdded(Grouped(Run(before).pending), calls.last.message, CAPACITY);
    assert !Accepts(Run(before), calls.last);
    AcceptedAtMost(before);
    assert Collecting(calls, n) && Accepted(calls).Count() < Messages(calls).Count();
  }

  lemma {:induction false} AcceptedAtMost(calls: History<Call>)
    ensures Accepted(calls).Count() <= calls.Count()
  {
    if calls.Then? {
      AcceptedAtMost(calls.before);
    }
  }

  // ------------------------------------------------------------------ batches

  /** The last call is accepted and completes a batch of `n` accepted ones. */
  predicate CompletesBatch(calls: History<Call>, n: nat)
    requires 0 < n
  {
    calls.Then? && Accepts(Run(calls.before), calls.last) && Accepted(calls).Count() % n == 0
  }

  /**
    With any fixed number per message, what waits is the unfinished batch of accepted messages; the
    accepted call that completes a batch sends its groups, and no other call sends anything.
   */
  lemma {:induction false} BatchesOfN(calls: History<Call>, n: nat)
    requires 1 < n && Collecting(calls, n)
    ensures var a := Accepted(calls);
      && AtBatch(Run(calls), a, n)
      && (CompletesBatch(calls, n) ==>
            n <= a.Count() && Run(calls).sent == SendAll(Run(calls.before).sent, Grouped(a.Suffix(n))))
      && (calls.Then? && !CompletesBatch(calls, n) ==> Run(calls).sent == Run(calls.before).sent)
  {
    if calls.Then? {
      BatchesOfN(calls.before, n);
      if Accepts(Run(calls.before), calls.last) {
        BatchStep(Run(calls.before), calls.last, Accepted(calls.before), n);
      }
    }
  }

  /** What waits is the unfinished batch of the messages accepted so far. */
  predicate AtBatch(s: State, accepted: History<Message>, n: nat)
    requires 0 < n
  {
    var k := accepted.Count() % n;
    k <= accepted.Count() && s.pending == accepted.Suffix(k)
  }

  lemma BatchStep(s: State, c: Call, accepted: History<Message>, n: nat)
    requires 1 < n && AtBatch(s, accepted, n) && Accepts(s, c) && c.direct != 1 && c.threshold == n
    ensures var a := Then(accepted, c.message);
      && AtBatch(Next(s, c), a, n)
      && (a.Count() % n == 0 ==> n <= a.Count() && Next(s, c).sent == SendAll(s.sent, Grouped(a.Suffix(n))))
      && (a.Count() % n != 0 ==> Next(s, c).sent == s.sent)
  {
    NextRemainder(accepted.Count(), n);
    BatchCall(s, c, accepted, accepted.Count() % n, n);
  }

  lemma BatchCall(s: State, c: Call, accepted: History<Message>, k: nat, n: nat)
    requires k < n && k <= accepted.Count() && s.pending == accepted.Suffix(k)
    requires Accepts(s, c) && c.direct != 1 && c.threshold == n
    ensures Next(s, c) == if k + 1 < n then State(Then(accepted, c.message).Suffix(k + 1), s.sent)
                          else State(Nothing, SendAll(s.sent, Grouped(Then(accepted, c.message).Suffix(n))))
  {
    SuffixCount(accepted, k);
  }

  /** Up to the capacity every call is accepted, so each n-th call, and no other, sends the last `n` messages. */
  lemma BatchesWithinCapacity(calls: History<Call>, n: nat)
    requires 1 < n <= CAPACITY && Collecting(calls, n) && calls.Then?
    ensures var m := Messages(calls);
      && calls.Count() % n <= calls.Count() && Run(calls).pending == m.Suffix(calls.Count() % n)
      && (calls.Count() % n == 0 ==>
            n <= calls.Count() && Run(calls).sent == SendAll(Run(calls.before).sent, Grouped(m.Suffix(n))))
      && (calls.Count() % n != 0 ==> Run(calls).sent == Run(calls.before).sent)
  {
    CollectingWithin(calls, n);
    NeverFull(calls);
    BatchesOfN(calls, n);
    AcceptedAtMost(calls.before);
  }

  lemma {:induction false} SuffixCount(h: History<Message>, n: nat)
    requires n <= h.Count()
    ensures h.Suffix(n).Count() == n
  {
    if n != 0 {
      SuffixCount(h.before, n - 1);
    }
  }

  // ------------------------------------------------------------------ what is delivered

  /** Each group is one delivery, in their order, under the timestamp of its first inference. */
  ghost predicate IsDeliveryOf(d: Delivery, g: Message) {
    d.inferences == g.All() && d.timestamp == d.inferences[0].timestamp
  }

  lemma {:induction false} SendAllDelivers(sent: History<Delivery>, groups: seq<Message>) returns (deliveries: seq<Delivery>)
    ensures InOrder(SendAll(sent, groups)) == InOrder(sent) + deliveries
    ensures |deliveries| == |groups| && forall i | 0 <= i < |groups| :: IsDeliveryOf(deliveries[i], groups[i])
  {
    if groups == [] {
      deliveries := [];
    } else {
      var n := |groups| - 1;
      var before := SendAllDelivers(sent, groups[..n]);
      var g := groups[n];
      deliveries := before + [Delivery(g.All(), g.first.timestamp)];
      assert InOrder(SendAll(sent, groups)) == InOrder(sent) + deliveries;
    }
  }

  /**
    Sending a batch of messages of one inference makes one delivery for each model, in the order in which
    the models first appear: its inferences in the order of arrival, under the timestamp of the first.
   */
  lemma BatchDelivered(sent: History<Delivery>, batch: History<Message>) returns (deliveries: seq<Delivery>)
    requires SingleInference(batch)
    ensures InOrder(SendAll(sent, Grouped(batch))) == InOrder(sent) + deliveries
    ensures var models := FirstAppearances(batch);
      && |deliveries| == |models|
      && forall i | 0 <= i < |models| ::
           && deliveries[i].inferences == InferencesOf(batch, models[i]) != []
           && deliveries[i].timestamp == deliveries[i].inferences[0].timestamp
  {
    var groups := Grouped(batch);
    deliveries := SendAllDelivers(sent, groups);
    GroupsByFirstAppearance(batch);
    GroupsHoldArrivals(batch);
    var models := FirstAppearances(batch);
    forall i | 0 <= i < |models|
      ensures deliveries[i].inferences == InferencesOf(batch, models[i]) != []
      ensures deliveries[i].timestamp == deliveries[i].inferences[0].timestamp
    {
      assert groups[i] in groups && Models(groups)[i] == models[i];
      assert IsDeliveryOf(deliveries[i], groups[i]);
    }
  }

  /** With one inference per message the message goes out at once, under the timestamp of the call, and what waits stays. */
  lemma DirectDelivers(s: State, c: Call)
    requires c.direct == 1
    ensures InOrder(Next(s, c).sent) == InOrder(s.sent) + [Delivery([c.message.first] + c.message.more, c.timestamp)]
    ensures Next(s, c).pending == s.pending
  {
  }

  // ------------------------------------------------------------------ timestamps
  // ------------------------------------------------------------------ timestamps

  predicate Earliest(g: Message) {
    forall x | x in g.All() :: g.first.timestamp <= x.timestamp
  }

  predicate FirstIsEarliest(groups: seq<Message>) {
    forall i | 0 <= i < |groups| :: Earliest(groups[i])
  }

  /** The timestamp of the group stays its smallest: that of the group for a message that joins it, its own for a new group. */
  predicate JoinsLater(groups: seq<Message>, m: Message) {
    var i := IndexOf(groups, m.model);
    if i < |groups| then groups[i].first.timestamp <= m.first.timestamp else Earliest(m)
  }

  /**
    No message begins earlier than the first one of its model that waits, and the first one of a model
    begins with its earliest inference.
   */
  predicate FirstNotLater(pending: History<Message>) {
    pending.Then? ==> FirstNotLater(pending.before) && JoinsLater(Grouped(pending.before), pending.last)
  }

  lemma EarliestGrown(g: Message, x: Inference)
    ensures Earliest(g.(more := g.more + [x])) <==> Earliest(g) && g.first.timestamp <= x.timestamp
  {
    var all := g.(more := g.more + [x]).All();
    assert all == g.All() + [x];
    assert x in all && forall y :: y in all <==> y in g.All() || y == x;
  }

  lemma EarliestReplaced(groups: seq<Message>, i: nat, g: Message)
    requires i < |groups| && (Earliest(g) ==> Earliest(groups[i]))
    ensures FirstIsEarliest(groups[i := g]) <==> FirstIsEarliest(groups) && Earliest(g)
  {
    var changed := groups[i := g];
    if FirstIsEarliest(changed) {
      assert Earliest(changed[i]);
      forall k | 0 <= k < |groups| ensures Earliest(groups[k]) {
        assert Earliest(changed[k]);
      }
    }
  }

  lemma EarliestAppended(groups: seq<Message>, m: Message)
    ensures FirstIsEarliest(groups + [m]) <==> FirstIsEarliest(groups) && Earliest(m)
  {
    var changed := groups + [m];
    if FirstIsEarliest(changed) {
      assert Earliest(changed[|groups|]);
      forall k | 0 <= k < |groups| ensures Earliest(groups[k]) {
        assert Earliest(changed[k]);
      }
    }
  }

  lemma EarliestAdded(groups: seq<Message>, m: Message)
    ensures FirstIsEarliest(Added(groups, m)) <==> FirstIsEarliest(groups) && JoinsLater(groups, m)
  {
    var i := IndexOf(groups, m.model);
    if i < |groups| {
      EarliestGrown(groups[i], m.first);
      EarliestReplaced(groups, i, groups[i].(more := groups[i].more + [m.first]));
      if FirstIsEarliest(groups) {
        assert Earliest(groups[i]);
      }
    } else {
      EarliestAppended(groups, m);
    }
  }

  /** The timestamp a group is sent under is its smallest one, for every group, exactly then. */
  lemma {:induction false} SmallestTimestampIff(pending: History<Message>)
    ensures FirstIsEarliest(Grouped(pending)) <==> FirstNotLater(pending)
  {
    if pending.Then? {
      SmallestTimestampIff(pending.before);
      EarliestAdded(Grouped(pending.before), pending.last);
    }
  }

  /** On the deliveries: each one's timestamp is the smallest of its inferences iff no message comes too late. */
  lemma DeliveriesSmallestIff(sent: History<Delivery>, pending: History<Message>) returns (deliveries: seq<Delivery>)
    ensures InOrder(SendAll(sent, Grouped(pending))) == InOrder(sent) + deliveries
    ensures (forall i | 0 <= i < |deliveries| :: IsSmallest(deliveries[i])) <==> FirstNotLater(pending)
  {
    var groups := Grouped(pending);
    deliveries := SendAllDelivers(sent, groups);
    SmallestTimestampIff(pending);
    forall i | 0 <= i < |groups| ensures IsSmallest(deliveries[i]) <==> Earliest(groups[i]) {
      assert IsDeliveryOf(deliveries[i], groups[i]);
    }
  }

  predicate IsSmallest(d: Delivery) {
    forall x | x in d.inferences :: d.timestamp <= x.timestamp
  }

  /** Two messages of a model in the wrong order: the group keeps the timestamp of the one that came first. */
  lemma SmallestTimestampOutOfOrder(late: Message, early: Message)
    requires late.model == early.model && early.first.timestamp < late.first.timestamp
    ensures !FirstIsEarliest(Grouped(Then(Then(Nothing, late), early)))
  {
    var one := Then(Nothing, late);
    assert Grouped(one) == Added([], late) == [late];
    SmallestTimestampIff(Then(one, early));
  }

  // ------------------------------------------------------------------ the array of slots

  /** An element of the array; `Free` stands for a null key. */
  datatype Slot = Free | Used(group: Message)

  datatype Result = Success | Failure | InvalidParam | DataTooLarge | Enqueued

  /** What happens before the queue is reached. */
  datatype Input = NullData | NoMemory | Unformatted | Formatted(message: Message)

  /** What the caller is told. `exported(i)` is the outcome of the i-th export of this call. */
  ghost function Answer(s: State, c: Call, exported: nat -> bool): Result {
    if !Accepts(s, c) then Failure
    else if c.direct == 1 then (if exported(0) then Success else Failure)
    else if s.pending.Count() + 1 < c.threshold then Enqueued
    else if AllExported(exported, |Grouped(Then(s.pending, c.message))|) then Success else Failure
  }

  predicate AllExported(exported: nat -> bool, n: nat) {
    n == 0 || (AllExported(exported, n - 1) && exported(n - 1))
  }

  lemma {:induction false} AllExportedIff(exported: nat -> bool, n: nat)
    ensures AllExported(exported, n) <==> forall i: nat :: i < n ==> exported(i)
  {
    if n > 0 {
      AllExportedIff(exported, n - 1);
    }
  }

  /** The exports that a call makes. */
  function Exports(s: State, c: Call): int {
    Next(s, c).sent.Count() - s.sent.Count()
  }

  lemma {:induction false} SendAllCounts(sent: History<Delivery>, groups: seq<Message>)
    ensures SendAll(sent, groups).Count() == sent.Count() + |groups|
  {
    if groups != [] {
      SendAllCounts(sent, groups[..|groups| - 1]);
    }
  }

  /** A call is told `Failure` iff it was refused or some export of it failed, `Enqueued` iff it was accepted and exports nothing, and else `Success`. */
  lemma AnswerTells(s: State, c: Call, exported: nat -> bool)
    ensures var r, n := Answer(s, c, exported), Exports(s, c);
      && (r == Failure <==> !Accepts(s, c) || exists i: nat :: i < n && !exported(i))
      && (r == Enqueued <==> Accepts(s, c) && n == 0)
      && (r == Success <==> Accepts(s, c) && n > 0 && forall i: nat :: i < n ==> exported(i))
  {
    var groups := Grouped(Then(s.pending, c.message));
    SendAllCounts(s.sent, groups);
    AllExportedIff(exported, |groups|);
    assert |groups| > 0;
  }

  lemma SendNext(sent: History<Delivery>, groups: seq<Message>, i: nat)
    requires i < |groups|
    ensures SendAll(sent, groups[..i + 1])
            == Then(SendAll(sent, groups[..i]), Delivery(groups[i].All(), groups[i].first.timestamp))
  {
    assert groups[..i + 1][..i] == groups[..i];
  }

  class Queue {
    const slots: array<Slot>
    var infCnt: uint32
    /** Everything passed to the data export. */
    var outbox: History<Delivery>
    ghost var pending: History<Message>

    ghost predicate Holds(groups: seq<Message>)
      reads slots
    {
      && slots.Length == CAPACITY && |groups| <= CAPACITY
      && (forall i | 0 <= i < |groups| :: slots[i] == Used(groups[i]))
      && (forall i | |groups| <= i < CAPACITY :: slots[i] == Free)
    }

    ghost predicate Valid()
      reads this, slots
    {
      Holds(Grouped(pending)) && infCnt == pending.Count() + 1
    }

    ghost function View(): State
      reads this
    {
      State(pending, outbox)
    }

    constructor ()
      ensures Valid() && View() == Run(Nothing)
    {
      slots := new Slot[CAPACITY](_ => Free);
      infCnt, outbox, pending := 1, Nothing, Nothing;
    }

    method AppendOutputTensor(m: Message) returns (isSet: bool)
      requires Holds(Grouped(pending))
      modifies slots, this`pending
      ensures isSet == (IndexOf(Grouped(old(pending)), m.model) < CAPACITY)
      ensures pending == if isSet then Then(old(pending), m) else old(pending)
      ensures Holds(Grouped(pending))
    {
      ghost var g := Grouped(pending);
      ghost var k := IndexOf(g, m.model);
      isSet := false;
      for i := 0 to CAPACITY
        invariant i <= k && Holds(g) && pending == old(pending)
        invariant !isSet
      {
        if slots[i].Free? {
          slots[i] := Used(m);
          isSet := true;
        } else if slots[i].group.model == m.model {
          var group := slots[i].group;
          slots[i] := Used(group.(more := group.more + [m.first]));
          isSet := true;
        }
        if isSet {
          pending := Then(pending, m);
          return;
        }
      }
    }

    method SendDataSyncMeta(input: Input, timestamp: nat, direct: uint32, threshold: uint32, exported: nat -> bool)
      returns (r: Result)
      requires Valid()
      modifies this, slots
      ensures Valid()
      ensures input.Formatted? ==>
                var c := Call(input.message, timestamp, direct, threshold);
                View() == Next(old(View()), c) && r == Answer(old(View()), c, exported)
      ensures !input.Formatted? ==>
                && View() == old(View())
                && r == if input.NullData? then InvalidParam else if input.NoMemory? then DataTooLarge else Failure
    {
      match input
      case NullData => return InvalidParam;
      case NoMemory => return DataTooLarge;
      case Unformatted => return Failure;
      case Formatted(m) =>
        if direct == 1 {
          outbox := Then(outbox, Delivery(m.All(), timestamp));
          return if exported(0) then Success else Failure;
        }
        var isSet := AppendOutputTensor(m);
        if !isSet {
          return Failure;
        }
        if infCnt < threshold {
          infCnt := infCnt + 1;
          return Enqueued;
        }
        r := Flush(exported);
        infCnt := 1;
    }

    /** Sends every group and frees its slot. */
    method Flush(exported: nat -> bool) returns (r: Result)
      requires Holds(Grouped(pending))
      modifies slots, this`outbox, this`pending
      ensures Holds([]) && pending == Nothing
      ensures outbox == SendAll(old(outbox), Grouped(old(pending)))
      ensures r == if AllExported(exported, |Grouped(old(pending))|) then Success else Failure
    {
      ghost var g := Grouped(pending);
      r := FlushSlots(exported, g);
      pending := Nothing;
    }

    method FlushSlots(exported: nat -> bool, ghost g: seq<Message>) returns (r: Result)
      requires Holds(g)
      modifies slots, this`outbox
      ensures Holds([])
      ensures outbox == SendAll(old(outbox), g)
      ensures r == if AllExported(exported, |g|) then Success else Failure
    {
      r := Success;
      var i := 0;
      while i < CAPACITY
        invariant i <= |g| <= CAPACITY && slots.Length == CAPACITY
        invariant forall k | i <= k < |g| :: slots[k] == Used(g[k])
        invariant forall k | 0 <= k < i || |g| <= k < CAPACITY :: slots[k] == Free
        invariant outbox == SendAll(old(outbox), g[..i])
        invariant r == if AllExported(exported, i) then Success else Failure
      {
        if slots[i].Free? {
          break;
        }
        var group := slots[i].group;
        outbox := Then(outbox, Delivery(group.All(), group.first.timestamp));
        if !exported(i) {
          r := Failure;
        }
        slots[i] := Free;
        SendNext(old(outbox), g, i);
        i := i + 1;
      }
      assert g[..i] == g;
    }
  }
}
