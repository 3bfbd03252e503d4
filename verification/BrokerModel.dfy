/** The in-memory publish/subscribe broker of internal/broker/memory_broker.go as a machine whose
    steps are single sends. Publishers hold the read lock while they go through the subscribers,
    so any number of them interleave; Subscribe, Unsubscribe and Close need the write lock and
    wait until nobody publishes. */
module BrokerModel {

  const BUFFER_SIZE := 100

  /** The `number`-th Publish call of a publisher, counted from 0. */
  datatype Msg = Msg(publisher: nat, number: nat)

  /** Everything ever sent on a channel, how much of it was received, and how often the channel
      was closed. */
  datatype Chan = Chan(accepted: seq<Msg>, received: nat, closes: nat)

  const NEW_CHAN := Chan([], 0, 0)

  /** A Publish call at its loop: the subscribers it goes through and the next one. */
  datatype Call = Call(topic: string, number: nat, targets: seq<nat>, next: nat)

  datatype Broker = Broker(subscribers: map<string, seq<nat>>, chans: seq<Chan>, closed: bool, calls: map<nat, nat>,
                           active: map<nat, Call>)

  const NEW_BROKER := Broker(map[], [], false, map[], map[])

  datatype Event =
    | Publish(p: nat, topic: string)
    | Send(p: nat, cancelled: bool)
    | Receive(ch: nat)
    | Subscribe(topic: string)
    | Unsubscribe(topic: string)
    | Close

  datatype History = Start | Then(before: History, e: Event)

  // ---------------------------------------------------------------------------
  // Steps
  // ---------------------------------------------------------------------------

  predicate Full(c: Chan) {
    |c.accepted| >= c.received + BUFFER_SIZE
  }

  /** A send that does not block. */
  function Offer(c: Chan, m: Msg): Chan {
    if Full(c) then c else c.(accepted := c.accepted + [m])
  }

  function Subscribers(b: Broker, topic: string): seq<nat> {
    if topic in b.subscribers then b.subscribers[topic] else []
  }

  function Calls(b: Broker, p: nat): nat {
    if p in b.calls then b.calls[p] else 0
  }

  /** Whom a Publish call would go through. */
  function Addressed(b: Broker, topic: string): seq<nat> {
    if b.closed then [] else Subscribers(b, topic)
  }

  function Accepted(b: Broker, ch: nat): seq<Msg> {
    if ch < |b.chans| then b.chans[ch].accepted else []
  }

  function BeginPublish(b: Broker, p: nat, topic: string): Broker {
    if p in b.active then b
    else
      var b' := b.(calls := b.calls[p := Calls(b, p) + 1]);
      if b.closed || |Subscribers(b, topic)| == 0 then b'
      else b'.(active := b.active[p := Call(topic, Calls(b, p), Subscribers(b, topic), 0)])
  }

  /** One turn of the loop of `Publish`: the select takes the cancelled context, sends, or, when
      the buffer is full, skips. */
  function SendStep(b: Broker, p: nat, cancelled: bool): Broker {
    if p !in b.active || b.active[p].next >= |b.active[p].targets| then b
    else
      var a := b.active[p];
      var ch := a.targets[a.next];
      if cancelled || ch >= |b.chans| then b.(active := b.active - {p})
      else
        b.(chans := b.chans[ch := Offer(b.chans[ch], Msg(p, a.number))],
           active := if a.next + 1 == |a.targets| then b.active - {p} else b.active[p := a.(next := a.next + 1)])
  }

  function ReceiveStep(b: Broker, ch: nat): Broker {
    if ch < |b.chans| && b.chans[ch].received < |b.chans[ch].accepted|
    then b.(chans := b.chans[ch := b.chans[ch].(received := b.chans[ch].received + 1)])
    else b
  }

  function SubscribeStep(b: Broker, topic: string): Broker {
    b.(subscribers := b.subscribers[topic := Subscribers(b, topic) + [|b.chans|]], chans := b.chans + [NEW_CHAN])
  }

  predicate ListedAt(subscribers: map<string, seq<nat>>, t: string, k: int, ch: nat) {
    t in subscribers && 0 <= k < |subscribers[t]| && subscribers[t][k] == ch
  }

  /** Where a channel is listed. */
  function Listings(subscribers: map<string, seq<nat>>, ch: nat): set<(string, nat)> {
    set t, k | t in subscribers && 0 <= k < |subscribers[t]| && ListedAt(subscribers, t, k, ch) :: (t, k)
  }

  /** Close every listed channel, once for each listing. */
  function CloseListed(chans: seq<Chan>, subscribers: map<string, seq<nat>>): seq<Chan> {
    seq(|chans|, i requires 0 <= i < |chans| => chans[i].(closes := chans[i].closes + |Listings(subscribers, i)|))
  }

  function Step(b: Broker, e: Event): Broker {
    match e
    case Publish(p, topic) => BeginPublish(b, p, topic)
    case Send(p, cancelled) => SendStep(b, p, cancelled)
    case Receive(ch) => ReceiveStep(b, ch)
    case Subscribe(topic) => if b.active != map[] || b.closed then b else SubscribeStep(b, topic)
    case Unsubscribe(topic) =>
      if b.active != map[] || b.closed || |Subscribers(b, topic)| == 0 then b
      else
        b.(subscribers := b.subscribers - {topic}, chans := CloseListed(b.chans, map[topic := b.subscribers[topic]]))
    case Close =>
      if b.active != map[] || b.closed then b
      else b.(subscribers := map[], chans := CloseListed(b.chans, b.subscribers), closed := true)
  }

  function Run(h: History): Broker {
    match h
    case Start => NEW_BROKER
    case Then(before, e) => Step(Run(before), e)
  }

  // ---------------------------------------------------------------------------
  // Registered channels are open, and nothing is sent on or closes a closed one
  // ---------------------------------------------------------------------------

  /** Every listed channel exists and is open; none is listed twice. */
  ghost predicate Registered(b: Broker) {
    && (forall t, k, ch: nat :: ListedAt(b.subscribers, t, k, ch) ==> ch < |b.chans| && b.chans[ch].closes == 0)
    && ListedOnce(b.subscribers)
  }

  ghost predicate ListedOnce(subscribers: map<string, seq<nat>>) {
    forall t, k, u, j, ch: nat :: ListedAt(subscribers, t, k, ch) && ListedAt(subscribers, u, j, ch) ==> t == u && k == j
  }

  /** A publisher in its loop goes through the present subscribers of its topic. */
  ghost predicate Publishing(b: Broker) {
    forall p :: p in b.active ==>
      var a := b.active[p];
      && a.topic in b.subscribers && a.targets == b.subscribers[a.topic] && a.next < |a.targets|
      && Calls(b, p) == a.number + 1
  }

  predicate ClosedAtMostOnce(b: Broker) {
    forall ch :: 0 <= ch < |b.chans| ==> b.chans[ch].closes <= 1
  }

  ghost predicate Sound(b: Broker) {
    Registered(b) && Publishing(b) && ClosedAtMostOnce(b) && (b.closed ==> b.subscribers == map[])
  }

  lemma PublishKeepsSound(b: Broker, p: nat, topic: string)
    requires Sound(b)
    ensures Sound(BeginPublish(b, p, topic))
  {}

  lemma SendKeepsSound(b: Broker, p: nat, cancelled: bool)
    requires Sound(b)
    ensures Sound(SendStep(b, p, cancelled))
  {
    hide ListedAt, ListedOnce;
    var b' := SendStep(b, p, cancelled);
    assert b'.subscribers == b.subscribers && |b'.chans| == |b.chans|;
    assert forall ch :: 0 <= ch < |b.chans| ==> b'.chans[ch].closes == b.chans[ch].closes;
    assert Registered(b');
    assert Publishing(b');
  }

  lemma ReceiveKeepsSound(b: Broker, ch: nat)
    requires Sound(b)
    ensures Sound(ReceiveStep(b, ch))
  {}

  lemma SubscribeKeepsSound(b: Broker, topic: string)
    requires Sound(b) && b.active == map[] && !b.closed
    ensures Sound(SubscribeStep(b, topic))
  {
    var b' := SubscribeStep(b, topic);
    NewListing(b, topic);
    hide ListedAt, ListedOnce;
  }

  /** The new channel is the only new listing. */
  lemma NewListing(b: Broker, topic: string)
    requires Registered(b)
    ensures var subscribers := SubscribeStep(b, topic).subscribers;
            && ListedOnce(subscribers)
            && forall t, k, ch: nat :: ListedAt(subscribers, t, k, ch) ==> ch == |b.chans| || ListedAt(b.subscribers, t, k, ch)
  {
    var subscribers := SubscribeStep(b, topic).subscribers;
    var n := |Subscribers(b, topic)|;
    assert forall t, k, ch: nat :: ListedAt(subscribers, t, k, ch) ==>
        if t == topic && k == n then ch == |b.chans| else ListedAt(b.subscribers, t, k, ch);
  }

  /** No channel has two listings, and a channel that has one is open. */
  lemma OneListing(b: Broker, subscribers: map<string, seq<nat>>, ch: nat)
    requires Registered(b)
    requires forall t :: t in subscribers ==> t in b.subscribers && subscribers[t] == b.subscribers[t]
    ensures |Listings(subscribers, ch)| <= 1
    ensures Listings(subscribers, ch) != {} ==> ch < |b.chans| && b.chans[ch].closes == 0
  {
    var l := Listings(subscribers, ch);
    assert forall x :: x in l ==> ListedAt(b.subscribers, x.0, x.1, ch);
    if l != {} {
      var x :| x in l;
      assert l == {x};
    }
  }

  lemma CloseKeepsOnce(b: Broker, subscribers: map<string, seq<nat>>)
    requires Registered(b) && ClosedAtMostOnce(b)
    requires forall t :: t in subscribers ==> t in b.subscribers && subscribers[t] == b.subscribers[t]
    ensures var chans := CloseListed(b.chans, subscribers);
            |chans| == |b.chans| &&
            forall i :: 0 <= i < |chans| ==>
              && chans[i].closes <= 1
              && chans[i].accepted == b.chans[i].accepted && chans[i].received == b.chans[i].received
              && (Listings(subscribers, i) == {} ==> chans[i].closes == b.chans[i].closes)
  {
    forall i: nat | i < |b.chans|
      ensures |Listings(subscribers, i)| <= 1
      ensures Listings(subscribers, i) != {} ==> b.chans[i].closes == 0
    {
      OneListing(b, subscribers, i);
    }
    hide Listings;
  }

  lemma UnsubscribeKeepsSound(b: Broker, topic: string)
    requires Sound(b) && b.active == map[] && topic in b.subscribers
    ensures Sound(b.(subscribers := b.subscribers - {topic},
                     chans := CloseListed(b.chans, map[topic := b.subscribers[topic]])))
  {
    var one, rest := map[topic := b.subscribers[topic]], b.subscribers - {topic};
    CloseKeepsOnce(b, one);
    assert forall t, k, ch: nat :: ListedAt(rest, t, k, ch) ==> t != topic && ListedAt(b.subscribers, t, k, ch);
    assert ListedOnce(rest);
    OthersNotListed(b, topic);
    hide Listings, CloseListed, ListedAt, ListedOnce;
  }

  lemma OthersNotListed(b: Broker, topic: string)
    requires Registered(b) && topic in b.subscribers
    ensures forall t, k, ch: nat :: ListedAt(b.subscribers, t, k, ch) && t != topic ==>
              Listings(map[topic := b.subscribers[topic]], ch) == {}
  {
    var one := map[topic := b.subscribers[topic]];
    assert forall ch: nat, x :: x in Listings(one, ch) ==> ListedAt(b.subscribers, topic, x.1, ch);
  }

  /** What every step keeps. */
  lemma StepKeepsSound(b: Broker, e: Event)
    requires Sound(b)
    ensures Sound(Step(b, e))
  {
    hide BeginPublish, SendStep, ReceiveStep, SubscribeStep, Registered, CloseListed;
    match e
    case Publish(p, topic) => PublishKeepsSound(b, p, topic);
    case Send(p, cancelled) => SendKeepsSound(b, p, cancelled);
    case Receive(ch) => ReceiveKeepsSound(b, ch);
    case Subscribe(topic) => if b.active == map[] && !b.closed { SubscribeKeepsSound(b, topic); }
    case Unsubscribe(topic) =>
      if b.active == map[] && topic in b.subscribers { UnsubscribeKeepsSound(b, topic); }
    case Close =>
      CloseKeepsOnce(b, b.subscribers);
      NothingListed(b.(subscribers := map[], chans := CloseListed(b.chans, b.subscribers), closed := true));
  }

  lemma NothingListed(b: Broker)
    requires b.subscribers == map[]
    ensures Registered(b)
  {}

  lemma {:induction false} RunIsSound(h: History)
    ensures Sound(Run(h))
  {
    if h.Then? {
      RunIsSound(h.before);
      StepKeepsSound(Run(h.before), h.e);
    } else {
      NothingListed(NEW_BROKER);
    }
  }

  /** Main result: in every run every registered channel is open, every channel is closed at most
      once, and once closed nothing more is accepted on it, however the run goes on. */
  lemma NeverSentOnAfterClose(h: History, e: Event, ch: nat)
    requires ch < |Run(h).chans|
    ensures forall t, k :: ListedAt(Run(h).subscribers, t, k, ch) ==> Run(h).chans[ch].closes == 0
    ensures Run(h).chans[ch].closes <= 1
    ensures ch < |Run(Then(h, e)).chans|
    ensures Run(h).chans[ch].closes == 1 ==>
              && Run(Then(h, e)).chans[ch].closes == 1
              && Run(Then(h, e)).chans[ch].accepted == Run(h).chans[ch].accepted
    ensures Run(h).chans[ch].closes == 1 && e.Send? && !e.cancelled && e.p in Run(h).active ==>
              var a := Run(h).active[e.p]; a.next < |a.targets| && a.targets[a.next] != ch
  {
    RunIsSound(h);
    RunIsSound(Then(h, e));
    hide Registered, Step;
    var b := Run(h);
    ListedIsOpen(b, ch);
    ClosedStaysClosed(b, e, ch);
    if e.Send? && e.p in b.active {
      NextIsOpen(b, e.p);
    }
  }

  lemma ListedIsOpen(b: Broker, ch: nat)
    requires Registered(b) && ch < |b.chans|
    ensures forall t, k :: ListedAt(b.subscribers, t, k, ch) ==> b.chans[ch].closes == 0
  {}

  /** A publisher's next channel is open. */
  lemma NextIsOpen(b: Broker, p: nat)
    requires Sound(b) && p in b.active
    ensures var a := b.active[p];
            a.next < |a.targets| && a.targets[a.next] < |b.chans| && b.chans[a.targets[a.next]].closes == 0
  {
    var a := b.active[p];
    assert ListedAt(b.subscribers, a.topic, a.next, a.targets[a.next]);
  }

  lemma ClosedStaysClosed(b: Broker, e: Event, ch: nat)
    requires Sound(b) && ch < |b.chans|
    ensures ch < |Step(b, e).chans| && Step(b, e).chans[ch].closes >= b.chans[ch].closes
    ensures b.chans[ch].closes == 1 ==> Step(b, e).chans[ch].accepted == b.chans[ch].accepted
  {
    hide Listings, Registered;
    if e.Send? && e.p in b.active {
      NextIsOpen(b, e.p);
    }
  }

  // ---------------------------------------------------------------------------
  // What one step does to one channel and to one publisher
  // ---------------------------------------------------------------------------

  /** The message `e` sends on `ch`. */
  predicate SendsOn(b: Broker, e: Event, ch: nat) {
    && e.Send? && !e.cancelled && e.p in b.active && b.active[e.p].next < |b.active[e.p].targets|
    && b.active[e.p].targets[b.active[e.p].next] == ch && ch < |b.chans|
  }

  lemma ChannelAfterStep(b: Broker, e: Event, ch: nat)
    ensures Accepted(Step(b, e), ch) ==
            if SendsOn(b, e, ch) && !Full(b.chans[ch])
            then Accepted(b, ch) + [Msg(e.p, b.active[e.p].number)] else Accepted(b, ch)
  {
    hide Listings;
  }

  predicate Begins(b: Broker, e: Event, p: nat) {
    e.Publish? && e.p == p && p !in b.active
  }

  lemma PublisherAfterStep(b: Broker, e: Event, p: nat)
    requires Sound(b)
    ensures var b' := Step(b, e);
            if Begins(b, e, p) then
              && Calls(b', p) == Calls(b, p) + 1
              && (p in b'.active <==> |Addressed(b, e.topic)| > 0)
              && (p in b'.active ==> b'.active[p] == Call(e.topic, Calls(b, p), Addressed(b, e.topic), 0))
            else
              && Calls(b', p) == Calls(b, p)
              && if p !in b.active then p !in b'.active
                 else if e.Send? && e.p == p then
                   var a := b.active[p];
                   if e.cancelled || a.next + 1 == |a.targets| then p !in b'.active
                   else p in b'.active && b'.active[p] == a.(next := a.next + 1)
                 else p in b'.active && b'.active[p] == b.active[p]
  {
    hide CloseListed, Registered;
    if e.Send? && e.p in b.active {
      NextIsOpen(b, e.p);
    }
  }

  // ---------------------------------------------------------------------------
  // Order, and at most once
  // ---------------------------------------------------------------------------

  /** The call numbers of one publisher, in the order in which a channel took them. */
  function Numbers(s: seq<Msg>, p: nat): seq<nat> {
    if |s| == 0 then []
    else
      var init, m := Numbers(s[..|s| - 1], p), s[|s| - 1];
      if m.publisher == p then init + [m.number] else init
  }

  predicate Increasing(s: seq<nat>) {
    forall i, j :: 0 <= i < j < |s| ==> s[i] < s[j]
  }

  predicate AllBelow(s: seq<nat>, n: int) {
    forall i :: 0 <= i < |s| ==> s[i] < n
  }

  /** `ch` is still to be offered the message of the call. */
  predicate Ahead(a: Call, ch: nat) {
    exists j :: a.next <= j < |a.targets| && a.targets[j] == ch
  }

  predicate InOrder(b: Broker, p: nat, ch: nat) {
    var numbers := Numbers(Accepted(b, ch), p);
    && Increasing(numbers) && AllBelow(numbers, Calls(b, p))
    && (p in b.active && Ahead(b.active[p], ch) ==> AllBelow(numbers, b.active[p].number))
  }

  lemma NumbersAppend(s: seq<Msg>, m: Msg, p: nat)
    ensures Numbers(s + [m], p) == if m.publisher == p then Numbers(s, p) + [m.number] else Numbers(s, p)
  {
    assert (s + [m])[..|s|] == s;
  }

  /** No target comes up twice in one call. */
  lemma TargetsDistinct(b: Broker, p: nat)
    requires Sound(b) && p in b.active
    ensures var targets := b.active[p].targets;
            forall j, k :: 0 <= j < |targets| && 0 <= k < |targets| && targets[j] == targets[k] ==> j == k
  {
    var a := b.active[p];
    assert forall j :: 0 <= j < |a.targets| ==> ListedAt(b.subscribers, a.topic, j, a.targets[j]);
  }

  lemma StepKeepsOrder(b: Broker, e: Event, p: nat, ch: nat)
    requires Sound(b) && InOrder(b, p, ch)
    ensures InOrder(Step(b, e), p, ch)
  {
    hide Step, Numbers, Registered, Publishing, Addressed, Calls;
    ChannelAfterStep(b, e, ch);
    PublisherAfterStep(b, e, p);
    if e.Send? && e.p in b.active {
      NextIsOpen(b, e.p);
      NumbersAppend(Accepted(b, ch), Msg(e.p, b.active[e.p].number), p);
      if e.p == p {
        TargetsDistinct(b, p);
        CallIsLast(b, p);
      }
    }
  }

  lemma CallIsLast(b: Broker, p: nat)
    requires Sound(b) && p in b.active
    ensures Calls(b, p) == b.active[p].number + 1
  {}

  lemma {:induction false} RunInOrder(h: History, p: nat, ch: nat)
    ensures InOrder(Run(h), p, ch)
  {
    if h.Then? {
      RunInOrder(h.before, p, ch);
      RunIsSound(h.before);
      StepKeepsOrder(Run(h.before), h.e, p, ch);
    }
  }

  /** Main result: in every run each channel takes the messages of one publisher at most once
      each and in the order of the calls. */
  lemma OrderedAtMostOnce(h: History, ch: nat, i: nat, j: nat)
    requires i < j < |Accepted(Run(h), ch)|
    requires Accepted(Run(h), ch)[i].publisher == Accepted(Run(h), ch)[j].publisher
    ensures Accepted(Run(h), ch)[i].number < Accepted(Run(h), ch)[j].number
  {
    hide Run;
    var s := Accepted(Run(h), ch);
    RunInOrder(h, s[i].publisher, ch);
    IncreasingMeans(s, s[i].publisher, i, j);
  }

  lemma {:induction false} NumberAt(s: seq<Msg>, p: nat, i: nat)
    requires i < |s| && s[i].publisher == p
    ensures |Numbers(s[..i], p)| < |Numbers(s, p)|
    ensures Numbers(s, p)[|Numbers(s[..i], p)|] == s[i].number
    ensures Numbers(s[..i], p) <= Numbers(s, p)
    decreases |s|
  {
    var init := s[..|s| - 1];
    if i < |init| {
      NumberAt(init, p, i);
      assert init[..i] == s[..i];
    }
  }

  lemma IncreasingMeans(s: seq<Msg>, p: nat, i: nat, j: nat)
    requires i < j < |s| && s[i].publisher == p && s[j].publisher == p && Increasing(Numbers(s, p))
    ensures s[i].number < s[j].number
  {
    hide Numbers;
    NumberAt(s, p, i);
    NumberAt(s, p, j);
    NumberAt(s[..j], p, i);
    assert s[..j][..i] == s[..i];
  }

  /** What was received is the front of what was accepted, and no more than a buffer is waiting. */
  lemma {:induction false} ReceivedIsPrefix(h: History, ch: nat)
    requires ch < |Run(h).chans|
    ensures var c := Run(h).chans[ch];
            && c.received <= |c.accepted| <= c.received + 100
            && (Full(c) <==> |c.accepted| == c.received + 100)
  {
    if h.Then? && ch < |Run(h.before).chans| {
      ReceivedIsPrefix(h.before, ch);
      KeepsBuffer(Run(h.before), h.e, ch);
    } else if h.Then? {
      hide CloseListed;
    }
  }

  lemma KeepsBuffer(b: Broker, e: Event, ch: nat)
    requires ch < |b.chans| && b.chans[ch].received <= |b.chans[ch].accepted| <= b.chans[ch].received + BUFFER_SIZE
    ensures ch < |Step(b, e).chans|
    ensures var c := Step(b, e).chans[ch]; c.received <= |c.accepted| <= c.received + BUFFER_SIZE
  {
    hide Listings;
  }

  // ---------------------------------------------------------------------------
  // When a message is missing
  // ---------------------------------------------------------------------------

  /** The subscribers of the topic when the call of message `m` took the lock. */
  function Addressees(h: History, m: Msg): seq<nat> {
    match h
    case Start => []
    case Then(before, e) =>
      if Begins(Run(before), e, m.publisher) && Calls(Run(before), m.publisher) == m.number
      then Addressed(Run(before), e.topic) else Addressees(before, m)
  }

  /** `e` makes `m` miss `ch`: it cancels the call before `ch` was reached, or finds its buffer
      full. */
  predicate Misses(b: Broker, e: Event, m: Msg, ch: nat) {
    && e.Send? && e.p == m.publisher && e.p in b.active && b.active[e.p].number == m.number
    && (if e.cancelled then Ahead(b.active[e.p], ch) else SendsOn(b, e, ch) && Full(b.chans[ch]))
  }

  predicate Missed(h: History, m: Msg, ch: nat) {
    h.Then? && (Missed(h.before, m, ch) || Misses(Run(h.before), h.e, m, ch))
  }

  /** The call of `m` is over. */
  predicate Finished(b: Broker, m: Msg) {
    m.number < Calls(b, m.publisher) && (m.publisher in b.active ==> b.active[m.publisher].number != m.number)
  }

  /** What is known about `m` and `ch` at any moment of a run. */
  predicate Fate(h: History, m: Msg, ch: nat) {
    var b := Run(h);
    var sent, missed, addressed := m in Accepted(b, ch), Missed(h, m, ch), ch in Addressees(h, m);
    if Finished(b, m) then (if addressed then sent != missed else !sent && !missed)
    else if m.number >= Calls(b, m.publisher) then !sent && !missed
    else
      && m.publisher in b.active && b.active[m.publisher].targets == Addressees(h, m)
      && if addressed && !Ahead(b.active[m.publisher], ch) then sent != missed else !sent && !missed
  }

  lemma OwnSendKeepsFate(h: History, e: Event, m: Msg, ch: nat)
    requires Fate(h, m, ch) && Sound(Run(h)) && e.Send? && e.p == m.publisher && e.p in Run(h).active
    ensures Fate(Then(h, e), m, ch)
  {
    var b := Run(h);
    assert Run(Then(h, e)) == Step(b, e);
    hide Run, Step, Registered, Publishing, Addressed, Calls, Full;
    ChannelAfterStep(b, e, ch);
    PublisherAfterStep(b, e, e.p);
    CallIsLast(b, e.p);
    NextIsOpen(b, e.p);
    TargetsDistinct(b, e.p);
  }

  lemma OtherStepKeepsFate(h: History, e: Event, m: Msg, ch: nat)
    requires Fate(h, m, ch) && Sound(Run(h)) && !(e.Send? && e.p == m.publisher && e.p in Run(h).active)
    ensures Fate(Then(h, e), m, ch)
  {
    var b, p := Run(h), m.publisher;
    assert Run(Then(h, e)) == Step(b, e);
    hide Run, Step, Registered, Publishing, Addressed, Calls, Full;
    ChannelAfterStep(b, e, ch);
    PublisherAfterStep(b, e, p);
    if p in b.active {
      CallIsLast(b, p);
    }
  }

  lemma StepKeepsFate(h: History, e: Event, m: Msg, ch: nat)
    requires Fate(h, m, ch) && Sound(Run(h))
    ensures Fate(Then(h, e), m, ch)
  {
    hide Fate, Sound, Run;
    if e.Send? && e.p == m.publisher && e.p in Run(h).active {
      OwnSendKeepsFate(h, e, m, ch);
    } else {
      OtherStepKeepsFate(h, e, m, ch);
    }
  }

  lemma {:induction false} RunFate(h: History, m: Msg, ch: nat)
    ensures Fate(h, m, ch)
  {
    if h.Then? {
      RunFate(h.before, m, ch);
      RunIsSound(h.before);
      StepKeepsFate(h.before, h.e, m, ch);
    }
  }

  /** Main result: once a Publish call is over, a channel has its message if and only if it was
      subscribed when the call began and was neither full when its turn came nor cut off by a
      cancellation. */
  lemma DeliveredIff(h: History, m: Msg, ch: nat)
    requires Finished(Run(h), m)
    ensures m in Accepted(Run(h), ch) <==> ch in Addressees(h, m) && !Missed(h, m, ch)
  {
    RunFate(h, m, ch);
  }

  // ---------------------------------------------------------------------------
  // Which channels are registered, and which are open
  // ---------------------------------------------------------------------------

  /** Subscribe, Unsubscribe and Close take effect when nobody publishes and the broker is open. */
  predicate TakesEffect(h: History, e: Event) {
    (e.Subscribe? || e.Unsubscribe? || e.Close?) && Run(h).active == map[] && !ClosedIn(h)
  }

  /** The broker was closed at some time. */
  predicate ClosedIn(h: History) {
    h.Then? && (ClosedIn(h.before) || (h.e.Close? && Run(h.before).active == map[]))
  }

  /** How many channels were ever made; channel `n` is made by the n-th Subscribe, counted from 0. */
  function Made(h: History): nat {
    if h.Start? then 0
    else Made(h.before) + if h.e.Subscribe? && TakesEffect(h.before, h.e) then 1 else 0
  }

  /** `ch` was made by a Subscribe to `topic`, and neither an Unsubscribe from that topic nor a Close
      came after it. */
  predicate StillSubscribed(h: History, topic: string, ch: nat) {
    h.Then? &&
    if TakesEffect(h.before, h.e) then
      || (h.e == Subscribe(topic) && ch == Made(h.before))
      || (StillSubscribed(h.before, topic, ch) && h.e != Unsubscribe(topic) && h.e != Close)
    else StillSubscribed(h.before, topic, ch)
  }

  /** Listed channels are the open ones. */
  ghost predicate OpenIffListed(b: Broker) {
    forall ch: nat :: ch < |b.chans| && b.chans[ch].closes == 0 ==> exists t, k :: ListedAt(b.subscribers, t, k, ch)
  }

  lemma SubscribersAfterStep(b: Broker, e: Event, topic: string)
    requires Sound(b)
    ensures var b', effective := Step(b, e), b.active == map[] && !b.closed;
            && (b'.closed <==> b.closed || (effective && e.Close?))
            && |b'.chans| == |b.chans| + (if effective && e.Subscribe? then 1 else 0)
            && Subscribers(b', topic) ==
               if effective && e == Subscribe(topic) then Subscribers(b, topic) + [|b.chans|]
               else if effective && (e == Unsubscribe(topic) || e == Close) then []
               else Subscribers(b, topic)
  {
    hide Listings, Registered, Publishing, Offer;
  }

  /** Main result: after any run a topic's subscribers are exactly the channels that were made for it
      and not dropped since. */
  lemma {:induction false} SubscribedIff(h: History, topic: string, ch: nat)
    ensures ch in Subscribers(Run(h), topic) <==> StillSubscribed(h, topic, ch)
    ensures Run(h).closed <==> ClosedIn(h)
    ensures |Run(h).chans| == Made(h)
  {
    if h.Then? {
      SubscribedIff(h.before, topic, ch);
      RunIsSound(h.before);
      SubscribersAfterStep(Run(h.before), h.e, topic);
      hide Step, Sound, Subscribers;
    }
  }

  lemma OpenAfterStep(b: Broker, e: Event, ch: nat)
    requires Sound(b) && OpenIffListed(b)
    requires ch < |Step(b, e).chans| && Step(b, e).chans[ch].closes == 0
    ensures exists t, k :: ListedAt(Step(b, e).subscribers, t, k, ch)
  {
    var b' := Step(b, e);
    hide Registered, Publishing, Listings, Offer;
    if ch < |b.chans| {
      OpenBefore(b, e, ch);
      var t, k :| ListedAt(b.subscribers, t, k, ch);
      if b'.subscribers == b.subscribers {
        assert ListedAt(b'.subscribers, t, k, ch);
      } else if e.Subscribe? {
        assert ListedAt(b'.subscribers, t, k, ch);
      } else if e.Close? {
        ListedIsClosed(b.subscribers, t, k, ch);
      } else {
        if t == e.topic {
          var one := map[t := b.subscribers[t]];
          assert ListedAt(one, t, k, ch);
          ListedIsClosed(one, t, k, ch);
        }
        assert ListedAt(b'.subscribers, t, k, ch);
      }
    } else {
      assert ListedAt(b'.subscribers, e.topic, |Subscribers(b, e.topic)|, ch);
    }
  }

  lemma ListedIsClosed(subscribers: map<string, seq<nat>>, t: string, k: int, ch: nat)
    requires ListedAt(subscribers, t, k, ch)
    ensures |Listings(subscribers, ch)| >= 1
  {
    assert (t, k) in Listings(subscribers, ch);
  }

  lemma OpenBefore(b: Broker, e: Event, ch: nat)
    requires Sound(b) && ch < |b.chans| && ch < |Step(b, e).chans| && Step(b, e).chans[ch].closes == 0
    ensures b.chans[ch].closes == 0
  {
    ClosedStaysClosed(b, e, ch);
  }

  lemma {:induction false} RunIsOpenIffListed(h: History)
    ensures OpenIffListed(Run(h))
  {
    if h.Then? {
      RunIsOpenIffListed(h.before);
      RunIsSound(h.before);
      var b, e := Run(h.before), h.e;
      forall ch: nat | ch < |Step(b, e).chans| && Step(b, e).chans[ch].closes == 0
        ensures exists t, k :: ListedAt(Step(b, e).subscribers, t, k, ch)
      {
        OpenAfterStep(b, e, ch);
      }
    }
  }

  /** Main result: a channel is open, so that its subscriber goes on waiting for messages, if and
      only if it is still subscribed to some topic. */
  lemma OpenIffSubscribed(h: History, ch: nat)
    requires ch < |Run(h).chans|
    ensures Run(h).chans[ch].closes == 0 <==> exists topic :: StillSubscribed(h, topic, ch)
  {
    RunIsOpenIffListed(h);
    RunIsSound(h);
    ListedIsOpen(Run(h), ch);
    hide Run, StillSubscribed, Sound;
    var b := Run(h);
    if topic, k :| ListedAt(b.subscribers, topic, k, ch) {
      assert ch in Subscribers(b, topic);
      SubscribedIff(h, topic, ch);
    }
    if topic :| StillSubscribed(h, topic, ch) {
      SubscribedIff(h, topic, ch);
      var k :| 0 <= k < |Subscribers(b, topic)| && Subscribers(b, topic)[k] == ch;
      assert ListedAt(b.subscribers, topic, k, ch);
    }
  }

  // ---------------------------------------------------------------------------
  // A whole Publish is its steps in a row
  // ---------------------------------------------------------------------------

  /** A Publish and its first `n` sends, with nothing in between. */
  function PublishAndSend(h: History, p: nat, topic: string, n: nat): History {
    if n == 0 then Then(h, Publish(p, topic)) else Then(PublishAndSend(h, p, topic, n - 1), Send(p, false))
  }

  /** The whole call: cancelled when it gets to its `reach`-th subscriber, if it does not get to
      all of them. */
  function WholePublish(h: History, p: nat, topic: string, reach: nat): History {
    var sent := PublishAndSend(h, p, topic, reach);
    if reach < |Addressed(Run(h), topic)| then Then(sent, Send(p, true)) else sent
  }

  /** The first `n` subscribers of `topic` were offered `m`, every other channel is as it was. */
  ghost predicate Offered(b: Broker, b': Broker, topic: string, m: Msg, n: nat) {
    var targets := Addressed(b, topic);
    && b'.subscribers == b.subscribers && b'.closed == b.closed && |b'.chans| == |b.chans|
    && (forall i :: 0 <= i < |targets| && i < n ==>
          targets[i] < |b.chans| && b'.chans[targets[i]] == Offer(b.chans[targets[i]], m))
    && (forall ch :: 0 <= ch < |b.chans| && (forall i :: 0 <= i < |targets| && i < n ==> targets[i] != ch) ==>
                       b'.chans[ch] == b.chans[ch])
  }

  lemma {:induction false} SendsOffer(h: History, p: nat, topic: string, n: nat)
    requires p !in Run(h).active && n <= |Addressed(Run(h), topic)| && |Addressed(Run(h), topic)| > 0
    ensures var b, b', targets := Run(h), Run(PublishAndSend(h, p, topic, n)), Addressed(Run(h), topic);
            && (forall i :: 0 <= i < |targets| ==> targets[i] < |b.chans|)
            && Offered(b, b', topic, Msg(p, Calls(b, p)), n)
            && if n < |targets| then p in b'.active && b'.active[p] == Call(topic, Calls(b, p), targets, n)
               else p !in b'.active
  {
    RunIsSound(h);
    TopicIsListed(Run(h), topic);
    if n > 0 {
      hide Run, Offered, Sound, Addressed;
      SendsOffer(h, p, topic, n - 1);
      OneSendOffers(Run(h), Run(PublishAndSend(h, p, topic, n - 1)), p, topic, n - 1);
      RunOfThen(PublishAndSend(h, p, topic, n - 1), Send(p, false));
    }
  }

  lemma RunOfThen(h: History, e: Event)
    ensures Run(Then(h, e)) == Step(Run(h), e)
  {}

  /** The channels of one topic exist and are distinct. */
  lemma TopicIsListed(b: Broker, topic: string)
    requires Sound(b)
    ensures var targets := Addressed(b, topic);
            && (forall i :: 0 <= i < |targets| ==> targets[i] < |b.chans|)
            && (forall i, j :: 0 <= i < |targets| && 0 <= j < |targets| && targets[i] == targets[j] ==> i == j)
  {
    var targets := Addressed(b, topic);
    assert forall i :: 0 <= i < |targets| ==> ListedAt(b.subscribers, topic, i, targets[i]);
  }

  lemma OneSendOffers(b: Broker, b': Broker, p: nat, topic: string, n: nat)
    requires var targets := Addressed(b, topic);
             && n < |targets|
             && (forall i :: 0 <= i < |targets| ==> targets[i] < |b.chans|)
             && (forall i, j :: 0 <= i < |targets| && 0 <= j < |targets| && targets[i] == targets[j] ==> i == j)
             && p in b'.active && b'.active[p] == Call(topic, Calls(b, p), targets, n)
    requires Offered(b, b', topic, Msg(p, Calls(b, p)), n)
    ensures var targets, b'' := Addressed(b, topic), Step(b', Send(p, false));
            && Offered(b, b'', topic, Msg(p, Calls(b, p)), n + 1)
            && if n + 1 < |targets| then p in b''.active && b''.active[p] == Call(topic, Calls(b, p), targets, n + 1)
               else p !in b''.active
  {
    hide Offer, Addressed;
  }

  /** Main result: a whole Publish that nothing interrupts offers its message to exactly the
      subscribers before the cancellation, leaves every other channel alone, and is over. This is
      the contract of the method Publish of the class MemoryBroker. */
  lemma PublishIsItsSteps(h: History, p: nat, topic: string, reach: nat)
    requires p !in Run(h).active && reach <= |Addressed(Run(h), topic)|
    ensures var b, b' := Run(h), Run(WholePublish(h, p, topic, reach));
            Offered(b, b', topic, Msg(p, Calls(b, p)), reach) && p !in b'.active
  {
    if |Addressed(Run(h), topic)| > 0 {
      SendsOffer(h, p, topic, reach);
      hide Offer, Addressed;
    }
  }
}
