/** The mapping manager as the source writes it: handler objects that are started and stopped, in
    a map that the update rewrites. Proved against MappingModel. */
module MappingManagement {
  import opened Options
  import opened MappingModel

  class MappingHandler {
    const config: MappingConfig
    var running: bool

    constructor (config: MappingConfig)
      ensures this.config == config && !running
    {
      this.config, running := config, false;
    }

    method Start(starts: bool) returns (ok: bool)
      modifies this
      ensures ok == running == starts
    {
      running := starts;
      ok := starts;
    }

    method Stop()
      modifies this
      ensures !running
    {
      running := false;
    }
  }

  /** The manager of the SOCKS5 listeners; a listener is what it was created with. */
  class SOCKS5Manager {
    var listeners: map<string, ListenerConfig>

    method AddMapping(m: MappingConfig, own: bool, starts: bool)
      modifies this
      ensures listeners == if !own || m.mappingID in old(listeners) || !starts then old(listeners)
                           else old(listeners)[m.mappingID := ListenerOf(m)]
    {
      if !own {
        return;
      }
      if m.mappingID in listeners {
        return;
      }
      if !starts {
        return;
      }
      listeners := listeners[m.mappingID := ListenerOf(m)];
    }

    method RemoveMapping(id: string)
      modifies this
      ensures listeners == old(listeners) - {id}
    {
      if id in listeners {
        listeners := listeners - {id};
      }
    }
  }

  class TunnoxClient {
    var mappingHandlers: map<string, MappingHandler>
    const socks5Manager: SOCKS5Manager?
    ghost var started: multiset<string>
    ghost var stopped: multiset<string>

    /** Exactly the registered handlers run, each under its own ID. */
    ghost predicate Valid()
      reads this, mappingHandlers.Values
    {
      && (forall id :: id in mappingHandlers ==> mappingHandlers[id].running)
      && (forall j, k :: j in mappingHandlers && k in mappingHandlers && mappingHandlers[j] == mappingHandlers[k] ==> j == k)
    }

    ghost function View(): Client
      reads this, socks5Manager
    {
      Client(map id | id in mappingHandlers :: mappingHandlers[id].config, Listeners(), started, stopped)
    }

    /** Without a manager there are no listeners. */
    ghost function Listeners(): map<string, ListenerConfig>
      reads socks5Manager
    {
      if socks5Manager == null then map[] else socks5Manager.listeners
    }

    constructor (socks5Manager: SOCKS5Manager?)
      ensures Valid() && this.socks5Manager == socks5Manager
      ensures View() == Client(map[], Listeners(), multiset{}, multiset{})
    {
      this.socks5Manager := socks5Manager;
      mappingHandlers, started, stopped := map[], multiset{}, multiset{};
    }

    /** `handler.Stop()` and the delete that follows it. */
    method StopAndDelete(id: string)
      requires Valid() && id in mappingHandlers
      modifies this, mappingHandlers.Values
      ensures Valid() && forall h :: h in old(mappingHandlers.Values) - mappingHandlers.Values ==> !h.running
      ensures mappingHandlers == old(mappingHandlers) - {id} && mappingHandlers.Values <= old(mappingHandlers.Values)
      ensures View() == Stop(old(View()), id)
    {
      ghost var before := mappingHandlers;
      mappingHandlers[id].Stop();
      mappingHandlers := mappingHandlers - {id};
      OnlyOneRemoved(before, id);
      stopped := stopped + multiset{id};
    }

    method RemoveMapping(id: string)
      requires Valid()
      modifies this, mappingHandlers.Values
      ensures Valid() && forall h :: h in old(mappingHandlers.Values) - mappingHandlers.Values ==> !h.running
      ensures View() == if id in old(View()).handlers then Stop(old(View()), id) else old(View())
    {
      if id in mappingHandlers {
        StopAndDelete(id);
      }
    }

    method StartAndRegister(m: MappingConfig, starts: bool)
      requires Valid() && m.mappingID !in mappingHandlers
      modifies this
      ensures Valid() && old(mappingHandlers.Values) <= mappingHandlers.Values
      ensures fresh(mappingHandlers.Values - old(mappingHandlers.Values))
      ensures View() == if !starts then old(View())
                        else old(View()).(handlers := old(View()).handlers[m.mappingID := m],
                                          started := old(View()).started + multiset{m.mappingID})
    {
      ghost var before := mappingHandlers;
      var handler := new MappingHandler(m);
      var ok := handler.Start(starts);
      if !ok {
        return;
      }
      mappingHandlers := mappingHandlers[m.mappingID := handler];
      ValuesOfOneMore(before, m.mappingID, handler);
      started := started + multiset{m.mappingID};
    }

    method AddOrUpdateMapping(m: MappingConfig, starts: bool)
      requires Valid()
      modifies this, mappingHandlers.Values
      ensures Valid() && forall h :: h in old(mappingHandlers.Values) - mappingHandlers.Values ==> !h.running
      ensures fresh(mappingHandlers.Values - old(mappingHandlers.Values))
      ensures View() == AddOrUpdate(old(View()), m, starts)
    {
      hide IsMappingConfigEqual;
      if m.mappingID in mappingHandlers {
        var existing := mappingHandlers[m.mappingID].config;
        if IsMappingConfigEqual(existing, m) {
          return;
        }
        StopAndDelete(m.mappingID);
      }
      if m.localPort == 0 {
        return;
      }
      var protocol := if m.protocol == "" then "tcp" else m.protocol;
      if IsSOCKS5Protocol(protocol) {
        return;
      }
      if protocol != "tcp" && protocol != "udp" {
        return;
      }
      StartAndRegister(m, starts);
    }

    /** `addOrUpdateSOCKS5Mapping` */
    method AddOrUpdateSOCKS5Mapping(m: MappingConfig, w: World, starts: bool)
      requires w.manager <==> socks5Manager != null
      modifies socks5Manager
      ensures View() == AddSOCKS5(old(View()), m, w, starts)
    {
      if socks5Manager == null {
        return;
      }
      socks5Manager.AddMapping(m, w.own, starts);
    }

    /** The first loop of handleConfigUpdate. */
    method ReceiveMappings(update: seq<MappingConfig>, w: World)
      requires Valid() && (w.manager <==> socks5Manager != null)
      modifies this, mappingHandlers.Values, socks5Manager
      ensures Valid() && forall h :: h in old(mappingHandlers.Values) - mappingHandlers.Values ==> !h.running
      ensures fresh(mappingHandlers.Values - old(mappingHandlers.Values))
      ensures View() == ReceiveAll(old(View()), update, w)
    {
      hide AddOrUpdate, AddSOCKS5, ReceiveAll;
      NothingReceived(View(), update[..0], w);
      for i := 0 to |update|
        invariant Valid() && forall h :: h in old(mappingHandlers.Values) - mappingHandlers.Values ==> !h.running
        invariant fresh(mappingHandlers.Values - old(mappingHandlers.Values))
        invariant View() == ReceiveAll(old(View()), update[..i], w)
      {
        OneMoreReceived(old(View()), update, w, i);
        var m := update[i];
        if IsSOCKS5Protocol(m.protocol) && m.localPort > 0 {
          AddOrUpdateSOCKS5Mapping(m, w, w.starts(i));
        } else {
          AddOrUpdateMapping(m, w.starts(i));
        }
      }
      assert update[..|update|] == update;
    }

    /** The second loop: stop what the update does not name. */
    method StopUnnamed(named: set<string>)
      requires Valid()
      modifies this, mappingHandlers.Values
      ensures Valid() && forall h :: h in old(mappingHandlers.Values) - mappingHandlers.Values ==> !h.running
      ensures mappingHandlers.Values <= old(mappingHandlers.Values)
      ensures var gone := old(View()).handlers.Keys - named;
              View() == old(View()).(handlers := old(View()).handlers - gone,
                                     stopped := old(View()).stopped + multiset(gone))
    {
      hide StoppedSoFar;
      ghost var before := View();
      var pending := mappingHandlers.Keys;
      assert pending == before.handlers.Keys;
      NothingStopped(before, named);
      while pending != {}
        invariant Valid() && forall h :: h in old(mappingHandlers.Values) - mappingHandlers.Values ==> !h.running
        invariant mappingHandlers.Values <= old(mappingHandlers.Values)
        invariant pending <= before.handlers.Keys
        invariant View() == StoppedSoFar(before, named, pending)
        decreases |pending|
      {
        var id :| id in pending;
        OneMoreVisited(before, named, pending, id);
        assert id in View().handlers;
        if id !in named {
          StopAndDelete(id);
        }
        pending := pending - {id};
      }
    }

    /** The third loop: drop the listeners the update does not name. */
    method RemoveUnnamedListeners(named: set<string>)
      modifies socks5Manager
      ensures Listeners() == old(Listeners()) - (old(Listeners()).Keys - named)
    {
      if socks5Manager == null {
        return;
      }
      hide Without;
      ghost var before := socks5Manager.listeners;
      var pending := socks5Manager.listeners.Keys;
      NothingWithout(before, named);
      while pending != {}
        invariant pending <= before.Keys
        invariant socks5Manager.listeners == Without(before, named, pending)
        decreases |pending|
      {
        var id :| id in pending;
        OneMoreWithout(before, named, pending, id);
        if id !in named {
          socks5Manager.RemoveMapping(id);
        }
        pending := pending - {id};
      }
    }

    /** `handleConfigUpdate`, for a body that parsed. */
    method HandleConfigUpdate(update: seq<MappingConfig>, w: World)
      requires Valid() && (w.manager <==> socks5Manager != null)
      modifies this, mappingHandlers.Values, socks5Manager
      ensures Valid() && forall h :: h in old(mappingHandlers.Values) - mappingHandlers.Values ==> !h.running
      ensures fresh(mappingHandlers.Values - old(mappingHandlers.Values))
      ensures View() == Update(old(View()), update, w)
    {
      hide ReceiveAll, IDs, SOCKS5IDs;
      ReceiveMappings(update, w);
      StopUnnamed(IDs(update));
      RemoveUnnamedListeners(SOCKS5IDs(update));
    }
  }

  lemma ValuesOfOneMore<T>(m: map<string, T>, id: string, value: T)
    requires id !in m
    ensures m[id := value].Values == m.Values + {value}
  {
    var m' := m[id := value];
    assert m'[id] == value && forall j :: j in m ==> m'[j] == m[j];
  }

  lemma OnlyOneRemoved<T>(m: map<string, T>, id: string)
    requires id in m
    ensures (m - {id}).Values <= m.Values
    ensures forall h :: h in m.Values - (m - {id}).Values ==> h == m[id]
  {
    assert forall j :: j in m && j != id ==> (m - {id})[j] == m[j];
  }

  lemma NothingReceived(c: Client, update: seq<MappingConfig>, w: World)
    requires |update| == 0
    ensures ReceiveAll(c, update, w) == c
  {}

  lemma OneMoreReceived(c: Client, update: seq<MappingConfig>, w: World, i: nat)
    requires i < |update|
    ensures ReceiveAll(c, update[..i + 1], w) == Receive(ReceiveAll(c, update[..i], w), update[i], w, w.starts(i))
  {
    assert update[..i + 1][..i] == update[..i];
  }

  /** The client when all handlers but the `pending` ones have been visited. */
  ghost function StoppedSoFar(before: Client, named: set<string>, pending: set<string>): Client {
    var gone := before.handlers.Keys - named - pending;
    before.(handlers := before.handlers - gone, stopped := before.stopped + multiset(gone))
  }

  lemma NothingStopped(before: Client, named: set<string>)
    ensures StoppedSoFar(before, named, before.handlers.Keys) == before
    ensures var gone := before.handlers.Keys - named;
            StoppedSoFar(before, named, {}) ==
            before.(handlers := before.handlers - gone, stopped := before.stopped + multiset(gone))
  {
    assert before.handlers.Keys - named - before.handlers.Keys == {};
    assert before.handlers - {} == before.handlers && before.stopped + multiset({}) == before.stopped;
    assert before.handlers.Keys - named - {} == before.handlers.Keys - named;
  }

  lemma OneMoreVisited(before: Client, named: set<string>, pending: set<string>, id: string)
    requires id in pending && pending <= before.handlers.Keys
    ensures id in StoppedSoFar(before, named, pending).handlers
    ensures StoppedSoFar(before, named, pending - {id}) ==
            if id in named then StoppedSoFar(before, named, pending)
            else Stop(StoppedSoFar(before, named, pending), id)
  {
    var gone, gone' := before.handlers.Keys - named - pending, before.handlers.Keys - named - (pending - {id});
    if id in named {
      assert gone' == gone;
    } else {
      assert gone' == gone + {id};
      assert multiset(gone') == multiset(gone) + multiset{id};
      assert before.handlers - gone' == before.handlers - gone - {id};
    }
  }

  /** The listeners when all but the `pending` ones have been visited. */
  ghost function Without(before: map<string, ListenerConfig>, named: set<string>, pending: set<string>)
    : map<string, ListenerConfig>
  {
    before - (before.Keys - named - pending)
  }

  lemma NothingWithout(before: map<string, ListenerConfig>, named: set<string>)
    ensures Without(before, named, before.Keys) == before
    ensures Without(before, named, {}) == before - (before.Keys - named)
  {
    assert before.Keys - named - before.Keys == {} && before - {} == before;
    assert before.Keys - named - {} == before.Keys - named;
  }

  lemma OneMoreWithout(before: map<string, ListenerConfig>, named: set<string>, pending: set<string>, id: string)
    requires id in pending && pending <= before.Keys
    ensures Without(before, named, pending - {id}) ==
            if id in named then Without(before, named, pending) else Without(before, named, pending) - {id}
  {
    var gone, gone' := before.Keys - named - pending, before.Keys - named - (pending - {id});
    assert gone' == if id in named then gone else gone + {id};
    assert before - (gone + {id}) == before - gone - {id};
  }
}
