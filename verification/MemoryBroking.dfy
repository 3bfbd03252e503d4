/** The broker as the source writes it: channel objects in a map from topics to lists. One call at
    a time; BrokerModel interleaves them. */
module MemoryBroking {
  import opened Options
  import opened BrokerModel

  class MessageChannel {
    var accepted: seq<Msg>
    var received: nat
    var closes: nat

    function View(): Chan
      reads this
    {
      Chan(accepted, received, closes)
    }

    constructor ()
      ensures View() == NEW_CHAN
    {
      accepted, received, closes := [], 0, 0;
    }

    /** A send that does not block; on a closed channel Go panics. */
    method TrySend(m: Msg) returns (sent: bool)
      requires closes == 0
      modifies this
      ensures View() == Offer(old(View()), m) && sent == !Full(old(View()))
    {
      if |accepted| >= received + BUFFER_SIZE {
        return false;
      }
      accepted := accepted + [m];
      return true;
    }

    /** Closing a closed channel makes Go panic. */
    method CloseChannel()
      requires closes == 0
      modifies this
      ensures View() == old(View()).(closes := 1)
    {
      closes := 1;
    }
  }

  datatype BrokerError = BrokerClosed | Cancelled | NoSubscribers

  class MemoryBroker {
    var subscribers: map<string, seq<MessageChannel>>
    var closed: bool

    /** Every registered channel is open, none is registered twice, and a closed broker has none. */
    ghost predicate Valid()
      reads this, Registered()
    {
      && HeldOnce(subscribers)
      && (forall t, k, ch :: HeldAt(subscribers, t, k, ch) ==> ch in Registered() && ch.closes == 0)
      && (closed ==> subscribers == map[])
    }

    ghost function Registered(): set<MessageChannel>
      reads this
    {
      set t, k | t in subscribers && 0 <= k < |subscribers[t]| && HeldAt(subscribers, t, k, subscribers[t][k])
        :: subscribers[t][k]
    }

    function Of(topic: string): seq<MessageChannel>
      reads this
    {
      if topic in subscribers then subscribers[topic] else []
    }

    constructor ()
      ensures Valid() && subscribers == map[] && !closed
    {
      subscribers, closed := map[], false;
    }

    /** How many of `n` subscribers a publish gets to: `cancelAt` is the one at whose turn the
        select takes the cancelled context. */
    static function Reach(cancelAt: Option<nat>, n: nat): (r: nat)
      ensures r <= n
    {
      if cancelAt.Some? && cancelAt.value < n then cancelAt.value else n
    }

    /** The loop of Publish. */
    method SendToAll(channels: seq<MessageChannel>, m: Msg, cancelAt: Option<nat>) returns (cancelled: bool)
      requires Distinct(channels) && forall i :: 0 <= i < |channels| ==> channels[i].closes == 0
      modifies channels
      ensures cancelled == (Reach(cancelAt, |channels|) < |channels|)
      ensures forall i :: 0 <= i < |channels| ==>
                channels[i].View() ==
                if i < Reach(cancelAt, |channels|) then Offer(old(channels[i].View()), m) else old(channels[i].View())
    {
      for i := 0 to |channels|
        invariant i <= Reach(cancelAt, |channels|)
        invariant forall j :: 0 <= j < i ==> channels[j].View() == Offer(old(channels[j].View()), m)
        invariant forall j :: i <= j < |channels| ==> channels[j].View() == old(channels[j].View())
      {
        if cancelAt == Some(i) {
          return true;
        }
        assert channels[i].View().closes == 0;
        var sent := channels[i].TrySend(m);
      }
      return false;
    }

    method Publish(topic: string, m: Msg, cancelAt: Option<nat>) returns (error: Option<BrokerError>)
      requires Valid()
      modifies Of(topic)
      ensures Valid()
      ensures var channels := Of(topic);
              && error == (if closed then Some(BrokerClosed)
                           else if Reach(cancelAt, |channels|) < |channels| then Some(Cancelled) else None)
              && forall i :: 0 <= i < |channels| ==>
                   channels[i].View() ==
                   if i < Reach(cancelAt, |channels|) then Offer(old(channels[i].View()), m) else old(channels[i].View())
    {
      if closed {
        return Some(BrokerClosed);
      }
      if topic !in subscribers || |subscribers[topic]| == 0 {
        return None;
      }
      var channels := subscribers[topic];
      HeldApart(subscribers, topic);
      assert forall k :: 0 <= k < |channels| ==> HeldAt(subscribers, topic, k, channels[k]);
      var cancelled := SendToAll(channels, m, cancelAt);
      return if cancelled then Some(Cancelled) else None;
    }

    method Subscribe(topic: string) returns (ch: Option<MessageChannel>)
      requires Valid()
      modifies this`subscribers
      ensures Valid()
      ensures ch.None? <==> closed
      ensures ch.None? ==> subscribers == old(subscribers)
      ensures ch.Some? ==>
                && fresh(ch.value) && ch.value.View() == NEW_CHAN
                && subscribers == old(subscribers)[topic := old(Of(topic)) + [ch.value]]
    {
      if closed {
        return None;
      }
      var msgChan := new MessageChannel();
      OneMoreHeld(subscribers, topic, Of(topic), msgChan);
      subscribers := subscribers[topic := Of(topic) + [msgChan]];
      return Some(msgChan);
    }

    method CloseAll(channels: seq<MessageChannel>)
      requires Distinct(channels) && forall i :: 0 <= i < |channels| ==> channels[i].closes == 0
      modifies channels
      ensures forall i :: 0 <= i < |channels| ==> channels[i].View() == old(channels[i].View()).(closes := 1)
    {
      for i := 0 to |channels|
        invariant forall j :: 0 <= j < i ==> channels[j].View() == old(channels[j].View()).(closes := 1)
        invariant forall j :: i <= j < |channels| ==> channels[j].View() == old(channels[j].View())
      {
        channels[i].CloseChannel();
      }
    }

    method Unsubscribe(topic: string) returns (error: Option<BrokerError>)
      requires Valid()
      modifies this`subscribers, Of(topic)
      ensures Valid()
      ensures error == if closed then Some(BrokerClosed)
                       else if |old(Of(topic))| == 0 then Some(NoSubscribers) else None
      ensures subscribers == if error.None? then old(subscribers) - {topic} else old(subscribers)
      ensures forall ch :: ch in old(Of(topic)) ==> ch.View() == old(ch.View()).(closes := 1)
    {
      if closed {
        return Some(BrokerClosed);
      }
      if topic !in subscribers || |subscribers[topic]| == 0 {
        return Some(NoSubscribers);
      }
      HeldApart(subscribers, topic);
      assert forall k :: 0 <= k < |subscribers[topic]| ==> HeldAt(subscribers, topic, k, subscribers[topic][k]);
      CloseAll(subscribers[topic]);
      subscribers := subscribers - {topic};
      return None;
    }

    method Close()
      requires Valid()
      modifies this, Registered()
      ensures Valid() && closed && subscribers == map[]
      ensures forall ch :: ch in old(Registered()) ==> ch.View() == old(ch.View()).(closes := 1)
    {
      if closed {
        return;
      }
      var pending := subscribers.Keys;
      ghost var all := Registered();
      while pending != {}
        invariant pending <= subscribers.Keys && subscribers == old(subscribers) && !closed
        invariant forall t, k, ch :: HeldAt(subscribers, t, k, ch) ==>
                    ch.View() == if t in pending then old(ch.View()) else old(ch.View()).(closes := 1)
        decreases |pending|
      {
        var topic :| topic in pending;
        HeldApart(subscribers, topic);
        assert forall k :: 0 <= k < |subscribers[topic]| ==> HeldAt(subscribers, topic, k, subscribers[topic][k]);
        CloseAll(subscribers[topic]);
        pending := pending - {topic};
      }
      assert forall ch :: ch in all ==> exists t, k :: HeldAt(subscribers, t, k, ch);
      closed := true;
      subscribers := map[];
    }
  }

  ghost predicate HeldAt(subscribers: map<string, seq<MessageChannel>>, t: string, k: int,
                         older ch: MessageChannel)
  {
    t in subscribers && 0 <= k < |subscribers[t]| && subscribers[t][k] == ch
  }

  /** No channel is registered twice. */
  ghost predicate HeldOnce(subscribers: map<string, seq<MessageChannel>>) {
    forall t, k, u, j, ch :: HeldAt(subscribers, t, k, ch) && HeldAt(subscribers, u, j, ch) ==> t == u && k == j
  }

  ghost predicate Distinct(channels: seq<MessageChannel>) {
    forall i, j :: 0 <= i < |channels| && 0 <= j < |channels| && channels[i] == channels[j] ==> i == j
  }

  lemma OneMoreHeld(subscribers: map<string, seq<MessageChannel>>, topic: string, channels: seq<MessageChannel>,
                    ch: MessageChannel)
    requires HeldOnce(subscribers) && channels == if topic in subscribers then subscribers[topic] else []
    requires forall t, k :: !HeldAt(subscribers, t, k, ch)
    ensures var now := subscribers[topic := channels + [ch]];
            && HeldOnce(now)
            && forall t, k, c :: HeldAt(now, t, k, c) ==> c == ch || HeldAt(subscribers, t, k, c)
  {
    var now := subscribers[topic := channels + [ch]];
    assert forall t, k, c :: HeldAt(now, t, k, c) ==>
        if t == topic && k == |channels| then c == ch else HeldAt(subscribers, t, k, c);
  }

  /** One topic's channels are distinct, no other topic has them, and dropping the topic keeps the
      rest as it was. */
  lemma HeldApart(subscribers: map<string, seq<MessageChannel>>, topic: string)
    requires HeldOnce(subscribers) && topic in subscribers
    ensures Distinct(subscribers[topic]) && HeldOnce(subscribers - {topic})
    ensures forall t, k, ch :: HeldAt(subscribers, t, k, ch) && t != topic ==> ch !in subscribers[topic]
    ensures forall t, k, ch :: HeldAt(subscribers - {topic}, t, k, ch) ==> t != topic && HeldAt(subscribers, t, k, ch)
  {
    assert forall k :: 0 <= k < |subscribers[topic]| ==> HeldAt(subscribers, topic, k, subscribers[topic][k]);
    var rest := subscribers - {topic};
    assert forall t, k, ch :: HeldAt(rest, t, k, ch) ==> t != topic && HeldAt(subscribers, t, k, ch);
  }
}
