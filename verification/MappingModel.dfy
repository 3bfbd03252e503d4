/** Reconciling the client's mappings with the configuration the server pushes,
    internal/client/mapping_manager.go. */
module MappingModel {
  import opened Options

  datatype MappingConfig = MappingConfig(
    mappingID: string, secretKey: string, protocol: string, localPort: int, targetHost: string, targetPort: int,
    targetClientID: int, bandwidthLimit: int, maxConnections: int, enableCompression: bool, compressionLevel: int,
    enableEncryption: bool, encryptionMethod: string, encryptionKey: string)

  /** The comparison that decides whether a handler is kept. */
  predicate IsMappingConfigEqual(a: MappingConfig, b: MappingConfig) {
    && a.mappingID == b.mappingID && a.protocol == b.protocol && a.localPort == b.localPort
    && a.targetHost == b.targetHost && a.targetPort == b.targetPort && a.targetClientID == b.targetClientID
    && a.secretKey == b.secretKey && a.bandwidthLimit == b.bandwidthLimit && a.maxConnections == b.maxConnections
    && a.enableCompression == b.enableCompression && a.compressionLevel == b.compressionLevel
    && a.enableEncryption == b.enableEncryption && a.encryptionMethod == b.encryptionMethod
    && a.encryptionKey == b.encryptionKey
  }

  predicate IsSOCKS5Protocol(protocol: string) {
    protocol == "socks5" || protocol == "socks"
  }

  /** The configuration goes to the SOCKS5 manager. */
  predicate ToSOCKS5(m: MappingConfig) {
    IsSOCKS5Protocol(m.protocol) && m.localPort > 0
  }

  /** An ordinary handler can be created for it: a local port and an adapter. */
  predicate Runnable(m: MappingConfig) {
    m.localPort != 0 && m.protocol in {"", "tcp", "udp"}
  }

  /** The part of a configuration that a SOCKS5 listener is created with. */
  datatype ListenerConfig = ListenerConfig(mappingID: string, localPort: int, targetClientID: int, secretKey: string)

  function ListenerOf(m: MappingConfig): ListenerConfig {
    ListenerConfig(m.mappingID, m.localPort, m.targetClientID, m.secretKey)
  }

  /** The ordinary handlers, the SOCKS5 listeners, and the IDs of every ordinary handler started
      and stopped so far. */
  datatype Client = Client(handlers: map<string, MappingConfig>, listeners: map<string, ListenerConfig>,
                           started: multiset<string>, stopped: multiset<string>)

  /** What the world decides: whether a SOCKS5 manager exists and takes the mappings for its own,
      and whether the listener of the i-th configuration starts. */
  datatype World = World(manager: bool, own: bool, starts: nat -> bool)

  function Stop(c: Client, id: string): Client
    requires id in c.handlers
  {
    c.(handlers := c.handlers - {id}, stopped := c.stopped + multiset{id})
  }

  /** `addOrUpdateMapping` */
  function AddOrUpdate(c: Client, m: MappingConfig, starts: bool): Client {
    var id := m.mappingID;
    if id in c.handlers && IsMappingConfigEqual(c.handlers[id], m) then c
    else
      var c' := if id in c.handlers then Stop(c, id) else c;
      if !Runnable(m) || !starts then c'
      else c'.(handlers := c'.handlers[id := m], started := c'.started + multiset{id})
  }

  /** `addOrUpdateSOCKS5Mapping`: an ID that already has a listener is left as it is. */
  function AddSOCKS5(c: Client, m: MappingConfig, w: World, starts: bool): Client {
    if !w.manager || !w.own || m.mappingID in c.listeners || !starts then c
    else c.(listeners := c.listeners[m.mappingID := ListenerOf(m)])
  }

  /** One configuration of an update. */
  function Receive(c: Client, m: MappingConfig, w: World, starts: bool): Client {
    if ToSOCKS5(m) then AddSOCKS5(c, m, w, starts) else AddOrUpdate(c, m, starts)
  }

  function ReceiveAll(c: Client, update: seq<MappingConfig>, w: World): Client {
    if |update| == 0 then c
    else Receive(ReceiveAll(c, update[..|update| - 1], w), update[|update| - 1], w, w.starts(|update| - 1))
  }

  function IDs(update: seq<MappingConfig>): set<string> {
    set m | m in update :: m.mappingID
  }

  function SOCKS5IDs(update: seq<MappingConfig>): set<string> {
    set m | m in update && ToSOCKS5(m) :: m.mappingID
  }

  /** Stop every ordinary handler the update does not name, and, if there is a manager, every
      listener it does not name as SOCKS5. */
  function DropUnnamed(c: Client, update: seq<MappingConfig>, w: World): Client {
    var gone := c.handlers.Keys - IDs(update);
    Client(c.handlers - gone, if w.manager then c.listeners - (c.listeners.Keys - SOCKS5IDs(update)) else c.listeners,
           c.started, c.stopped + multiset(gone))
  }

  /** `handleConfigUpdate` on a body that parsed. */
  function Update(c: Client, update: seq<MappingConfig>, w: World): Client {
    DropUnnamed(ReceiveAll(c, update, w), update, w)
  }

  /** What holds of every client: a handler is filed under its own ID and could be created. */
  predicate Tidy(c: Client) {
    forall id :: id in c.handlers ==> c.handlers[id].mappingID == id && Runnable(c.handlers[id])
  }

  predicate AllStart(w: World, n: nat) {
    forall i :: 0 <= i < n ==> w.starts(i)
  }

  // ---------------------------------------------------------------------------
  // The ordinary handlers after an update
  // ---------------------------------------------------------------------------

  function Slot(c: Client, id: string): Option<MappingConfig> {
    if id in c.handlers then Some(c.handlers[id]) else None
  }

  /** The last configuration of an ID. */
  function LastOf(update: seq<MappingConfig>, id: string): Option<MappingConfig> {
    if |update| == 0 then None
    else
      var m := update[|update| - 1];
      if m.mappingID == id then Some(m) else LastOf(update[..|update| - 1], id)
  }

  /** The last one that does not go to the SOCKS5 manager. */
  function LastOrdinary(update: seq<MappingConfig>, id: string): Option<MappingConfig> {
    if |update| == 0 then None
    else
      var m := update[|update| - 1];
      if m.mappingID == id && !ToSOCKS5(m) then Some(m) else LastOrdinary(update[..|update| - 1], id)
  }

  function IfRunnable(m: MappingConfig): Option<MappingConfig> {
    if Runnable(m) then Some(m) else None
  }

  lemma ConfigEqualIff(a: MappingConfig, b: MappingConfig)
    ensures IsMappingConfigEqual(a, b) <==> a == b
  {}

  /** One configuration decides its own slot and no other. */
  lemma SlotAfterReceive(c: Client, m: MappingConfig, w: World, starts: bool, id: string)
    requires Tidy(c)
    ensures Tidy(Receive(c, m, w, starts))
    ensures Slot(Receive(c, m, w, starts), id) ==
            if ToSOCKS5(m) || m.mappingID != id then Slot(c, id)
            else if Slot(c, id) == Some(m) then Some(m)
            else if starts then IfRunnable(m)
            else None
  {
    if id in c.handlers {
      ConfigEqualIff(c.handlers[id], m);
    }
    hide Runnable, ToSOCKS5, IsMappingConfigEqual;
  }

  lemma {:induction false} SlotAfterAll(c: Client, update: seq<MappingConfig>, w: World, id: string)
    requires Tidy(c) && AllStart(w, |update|)
    ensures Tidy(ReceiveAll(c, update, w))
    ensures Slot(ReceiveAll(c, update, w), id) ==
            match LastOrdinary(update, id) case None => Slot(c, id) case Some(m) => IfRunnable(m)
    decreases |update|
  {
    hide Runnable, ToSOCKS5, Receive, Tidy;
    if |update| > 0 {
      var init, m := update[..|update| - 1], update[|update| - 1];
      SlotAfterAll(c, init, w, id);
      SlotAfterReceive(ReceiveAll(c, init, w), m, w, true, id);
      TidySlot(ReceiveAll(c, init, w), id);
    }
  }

  lemma TidySlot(c: Client, id: string)
    requires Tidy(c)
    ensures Slot(c, id).Some? ==> IfRunnable(Slot(c, id).value) == Slot(c, id)
  {}

  lemma NamedIff(update: seq<MappingConfig>, id: string)
    ensures id in IDs(update) <==> LastOf(update, id).Some?
    ensures LastOrdinary(update, id).Some? ==> LastOf(update, id).Some?
    ensures LastOf(update, id).Some? && !ToSOCKS5(LastOf(update, id).value) ==>
              LastOrdinary(update, id) == LastOf(update, id)
    decreases |update|
  {
    hide ToSOCKS5;
    if |update| > 0 {
      var init, m := update[..|update| - 1], update[|update| - 1];
      NamedIff(init, id);
      assert update == init + [m];
    }
  }

  /** What the server means an ID to be after the update: a handler for its last configuration,
      if that is one for an ordinary handler. */
  function Wanted(update: seq<MappingConfig>, id: string): Option<MappingConfig> {
    match LastOf(update, id)
    case None => None
    case Some(m) => IfRunnable(m)
  }

  /** An ID whose last configuration is SOCKS5 keeps no ordinary handler: neither one from before
      the update nor one from earlier in it. */
  predicate NoLeftover(c: Client, update: seq<MappingConfig>, id: string) {
    LastOf(update, id).Some? && ToSOCKS5(LastOf(update, id).value) ==>
      match LastOrdinary(update, id)
      case None => id !in c.handlers
      case Some(m) => !Runnable(m)
  }

  lemma SlotAfterUpdate(c: Client, update: seq<MappingConfig>, w: World, id: string)
    requires Tidy(c) && AllStart(w, |update|)
    ensures Tidy(Update(c, update, w))
    ensures Slot(Update(c, update, w), id) ==
            if LastOf(update, id).None? then None
            else match LastOrdinary(update, id) case None => Slot(c, id) case Some(m) => IfRunnable(m)
  {
    hide Runnable, ToSOCKS5, LastOf, LastOrdinary, IDs, SOCKS5IDs, ReceiveAll;
    SlotAfterAll(c, update, w, id);
    NamedIff(update, id);
  }

  lemma WantedIff(c: Client, update: seq<MappingConfig>, w: World, id: string)
    requires Tidy(c) && AllStart(w, |update|)
    ensures Slot(Update(c, update, w), id) == Wanted(update, id) <==> NoLeftover(c, update, id)
  {
    hide LastOf, LastOrdinary, Update;
    SlotAfterUpdate(c, update, w, id);
    NamedIff(update, id);
    TidySlot(c, id);
  }

  /** Main result: if every listener starts, the ordinary handlers after an update are exactly the
      last configuration of each ID that is for an ordinary handler, if and only if no ID whose
      last configuration is SOCKS5 still has an ordinary handler. */
  lemma ReconciledIff(c: Client, update: seq<MappingConfig>, w: World)
    requires Tidy(c) && AllStart(w, |update|)
    ensures (forall id :: Slot(Update(c, update, w), id) == Wanted(update, id)) <==>
            (forall id :: NoLeftover(c, update, id))
  {
    forall id: string
      ensures Slot(Update(c, update, w), id) == Wanted(update, id) <==> NoLeftover(c, update, id)
    {
      WantedIff(c, update, w, id);
    }
    hide Update, Wanted, NoLeftover, Slot;
  }

  /** What one configuration makes of a client without mappings: a handler for "tcp", "udp" and an
      empty protocol on any local port but 0, a listener for "socks5" and "socks" on a positive
      port, and nothing in every other case. */
  lemma FirstMapping(m: MappingConfig, own: bool)
    ensures var ordinary := m.localPort != 0 && (m.protocol == "" || m.protocol == "tcp" || m.protocol == "udp");
            var socks := m.localPort > 0 && (m.protocol == "socks5" || m.protocol == "socks");
            var id := m.mappingID;
            var c := Update(Client(map[], map[], multiset{}, multiset{}), [m], World(true, own, _ => true));
            && c.handlers == (if ordinary then map[id := m] else map[])
            && c.listeners == (if socks && own then map[id := ListenerConfig(id, m.localPort, m.targetClientID, m.secretKey)]
                               else map[])
            && c.started == (if ordinary then multiset{id} else multiset{}) && c.stopped == multiset{}
  {
    hide IDs, SOCKS5IDs, ReceiveAll, Receive, DropUnnamed;
    var w, c0 := World(true, own, _ => true), Client(map[], map[], multiset{}, multiset{});
    ReceiveOne(c0, m, w);
    FirstReceived(m, w);
    NothingToDrop(Receive(c0, m, w, true), m, w);
  }

  lemma FirstReceived(m: MappingConfig, w: World)
    requires w.manager
    ensures Receive(Client(map[], map[], multiset{}, multiset{}), m, w, true) ==
            if ToSOCKS5(m) then
              Client(map[], if w.own then map[m.mappingID := ListenerOf(m)] else map[], multiset{}, multiset{})
            else if Runnable(m) then Client(map[m.mappingID := m], map[], multiset{m.mappingID}, multiset{})
            else Client(map[], map[], multiset{}, multiset{})
  {
    hide ToSOCKS5, Runnable, IsMappingConfigEqual;
  }

  lemma NothingToDrop(c: Client, m: MappingConfig, w: World)
    requires c.handlers.Keys <= {m.mappingID}
    requires c.listeners.Keys <= if ToSOCKS5(m) then {m.mappingID} else {}
    ensures DropUnnamed(c, [m], w) == c
  {
    assert m in [m];
    assert IDs([m]) == {m.mappingID};
    assert SOCKS5IDs([m]) == if ToSOCKS5(m) then {m.mappingID} else {};
    hide ToSOCKS5, IDs, SOCKS5IDs;
    assert c.handlers.Keys - IDs([m]) == {};
    assert c.handlers - {} == c.handlers;
    assert c.listeners - (c.listeners.Keys - SOCKS5IDs([m])) == c.listeners;
  }

  const EXAMPLE := MappingConfig("m", "", "tcp", 80, "host", 80, 0, 0, 0, false, 0, false, "", "")

  const EVERYTHING := World(true, true, _ => true)

  /** An ID that switches from TCP to SOCKS5 keeps its TCP handler beside the new listener. */
  lemma SwitchLeavesHandler()
    ensures var c := Client(map["m" := EXAMPLE], map[], multiset{"m"}, multiset{});
            var socks := EXAMPLE.(protocol := "socks5");
            && Tidy(c) && Wanted([socks], "m") == None
            && Slot(Update(c, [socks], EVERYTHING), "m") == Some(EXAMPLE)
            && "m" in Update(c, [socks], EVERYTHING).listeners
  {
    var c := Client(map["m" := EXAMPLE], map[], multiset{"m"}, multiset{});
    var socks := EXAMPLE.(protocol := "socks5");
    ReceiveOne(c, socks, EVERYTHING);
    assert IDs([socks]) == {"m"} && SOCKS5IDs([socks]) == {"m"} by { assert socks in [socks]; }
    assert LastOf([socks], "m") == Some(socks);
  }

  lemma ReceiveOne(c: Client, m: MappingConfig, w: World)
    ensures ReceiveAll(c, [m], w) == Receive(c, m, w, w.starts(0))
  {
    assert [m][..0] == [];
  }

  /** A listener that fails to start leaves its ID without a handler, unless the same configuration
      was running already. */
  lemma FailedStartLeavesNone(c: Client, m: MappingConfig, w: World)
    requires Tidy(c) && !ToSOCKS5(m)
    ensures Slot(Receive(c, m, w, false), m.mappingID) == if Slot(c, m.mappingID) == Some(m) then Some(m) else None
  {
    SlotAfterReceive(c, m, w, false, m.mappingID);
  }

  // ---------------------------------------------------------------------------
  // The SOCKS5 listeners after an update
  // ---------------------------------------------------------------------------

  function ListenerSlot(c: Client, id: string): Option<ListenerConfig> {
    if id in c.listeners then Some(c.listeners[id]) else None
  }

  /** The first configuration of an ID that goes to the SOCKS5 manager. */
  function FirstSOCKS5(update: seq<MappingConfig>, id: string): Option<MappingConfig> {
    if |update| == 0 then None
    else
      match FirstSOCKS5(update[..|update| - 1], id)
      case Some(m) => Some(m)
      case None =>
        var m := update[|update| - 1];
        if m.mappingID == id && ToSOCKS5(m) then Some(m) else None
  }

  lemma OrdinaryLeavesListeners(c: Client, m: MappingConfig, starts: bool)
    ensures AddOrUpdate(c, m, starts).listeners == c.listeners
  {}

  lemma ListenerAfterReceive(c: Client, m: MappingConfig, w: World, id: string)
    requires w.manager && w.own
    ensures ListenerSlot(Receive(c, m, w, true), id) ==
            if ToSOCKS5(m) && m.mappingID == id && ListenerSlot(c, id).None? then Some(ListenerOf(m))
            else ListenerSlot(c, id)
  {
    OrdinaryLeavesListeners(c, m, true);
    hide ToSOCKS5, AddOrUpdate;
  }

  lemma {:induction false} ListenersAfterAll(c: Client, update: seq<MappingConfig>, w: World, id: string)
    requires w.manager && w.own && AllStart(w, |update|)
    ensures ListenerSlot(ReceiveAll(c, update, w), id) ==
            match ListenerSlot(c, id)
            case Some(kept) => Some(kept)
            case None => match FirstSOCKS5(update, id) case None => None case Some(m) => Some(ListenerOf(m))
    decreases |update|
  {
    hide ToSOCKS5, Receive, ListenerSlot;
    if |update| > 0 {
      var init, m := update[..|update| - 1], update[|update| - 1];
      ListenersAfterAll(c, init, w, id);
      ListenerAfterReceive(ReceiveAll(c, init, w), m, w, id);
    }
  }

  lemma {:induction false} FirstSOCKS5Is(update: seq<MappingConfig>, id: string)
    ensures id in SOCKS5IDs(update) <==> FirstSOCKS5(update, id).Some?
    ensures FirstSOCKS5(update, id).Some? ==>
              FirstSOCKS5(update, id).value.mappingID == id && FirstSOCKS5(update, id).value in update
    decreases |update|
  {
    hide ToSOCKS5;
    if |update| > 0 {
      var init, m := update[..|update| - 1], update[|update| - 1];
      FirstSOCKS5Is(init, id);
      assert update == init + [m];
    }
  }

  /** The listeners are those the update names: an existing one keeps the configuration it has,
      and a new one gets the first SOCKS5 configuration of its ID. */
  lemma ListenerKeepsOldConfig(c: Client, update: seq<MappingConfig>, w: World, id: string)
    requires w.manager && w.own && AllStart(w, |update|)
    ensures ListenerSlot(Update(c, update, w), id) ==
            match FirstSOCKS5(update, id)
            case None => None
            case Some(m) => if id in c.listeners then Some(c.listeners[id]) else Some(ListenerOf(m))
  {
    hide ReceiveAll, SOCKS5IDs, IDs, FirstSOCKS5, ToSOCKS5, AllStart;
    ListenersAfterAll(c, update, w, id);
    FirstSOCKS5Is(update, id);
  }

  /** What the server means an ID to be: a listener for its last configuration, if that is SOCKS5. */
  function WantedListener(update: seq<MappingConfig>, id: string): Option<ListenerConfig> {
    match LastOf(update, id)
    case None => None
    case Some(m) => if ToSOCKS5(m) then Some(ListenerOf(m)) else None
  }

  /** An ID that the update names as SOCKS5 ends as SOCKS5, and what its listener is created with
      is what an existing listener has, or else what the first configuration of the ID says. */
  predicate NothingStale(c: Client, update: seq<MappingConfig>, id: string) {
    match FirstSOCKS5(update, id)
    case None => true
    case Some(first) =>
      && LastOf(update, id).Some? && ToSOCKS5(LastOf(update, id).value)
      && ListenerOf(LastOf(update, id).value) == if id in c.listeners then c.listeners[id] else ListenerOf(first)
  }

  lemma LastSOCKS5IsNamed(update: seq<MappingConfig>, id: string)
    requires LastOf(update, id).Some? && ToSOCKS5(LastOf(update, id).value)
    ensures FirstSOCKS5(update, id).Some?
    decreases |update|
  {
    hide ToSOCKS5;
    if update[|update| - 1].mappingID != id {
      LastSOCKS5IsNamed(update[..|update| - 1], id);
    }
  }

  lemma WantedListenerIff(c: Client, update: seq<MappingConfig>, w: World, id: string)
    requires w.manager && w.own && AllStart(w, |update|)
    ensures ListenerSlot(Update(c, update, w), id) == WantedListener(update, id) <==> NothingStale(c, update, id)
  {
    hide Update, LastOf, FirstSOCKS5, ToSOCKS5, AllStart;
    ListenerKeepsOldConfig(c, update, w, id);
    if LastOf(update, id).Some? && ToSOCKS5(LastOf(update, id).value) {
      LastSOCKS5IsNamed(update, id);
    }
  }

  /** Main result for the listeners: if every listener starts, they are exactly the last
      configuration of each ID that ends as SOCKS5, if and only if no ID keeps a stale one: from
      before the update, or from an earlier configuration in it. */
  lemma ListenersReconciledIff(c: Client, update: seq<MappingConfig>, w: World)
    requires w.manager && w.own && AllStart(w, |update|)
    ensures (forall id :: ListenerSlot(Update(c, update, w), id) == WantedListener(update, id)) <==>
            (forall id :: NothingStale(c, update, id))
  {
    forall id: string
      ensures ListenerSlot(Update(c, update, w), id) == WantedListener(update, id) <==> NothingStale(c, update, id)
    {
      WantedListenerIff(c, update, w, id);
    }
    hide Update, WantedListener, NothingStale, ListenerSlot;
  }

  // ---------------------------------------------------------------------------
  // Applying the same update again
  // ---------------------------------------------------------------------------

  /** The client already is what `m` asks for. */
  predicate Served(c: Client, m: MappingConfig) {
    if ToSOCKS5(m) then m.mappingID in c.listeners else Slot(c, m.mappingID) == IfRunnable(m)
  }

  lemma ServedIsKept(c: Client, m: MappingConfig, w: World, starts: bool)
    requires Served(c, m)
    ensures Receive(c, m, w, starts) == c
  {
    hide IsSOCKS5Protocol;
    if m.mappingID in c.handlers {
      ConfigEqualIff(c.handlers[m.mappingID], m);
    }
  }

  lemma {:induction false} AllServedIsKept(c: Client, update: seq<MappingConfig>, w: World)
    requires forall i :: 0 <= i < |update| ==> Served(c, update[i])
    ensures ReceiveAll(c, update, w) == c
    decreases |update|
  {
    hide Served, Receive;
    if |update| > 0 {
      AllServedIsKept(c, update[..|update| - 1], w);
      ServedIsKept(c, update[|update| - 1], w, w.starts(|update| - 1));
    }
  }

  /** For each ID, the configurations for the ordinary handler are all the same one, or none of
      them can run. */
  predicate Agreeing(update: seq<MappingConfig>) {
    forall i, j :: 0 <= i < |update| && 0 <= j < |update| && SameOrdinary(update[i], update[j]) ==>
                     IfRunnable(update[i]) == IfRunnable(update[j])
  }

  predicate SameOrdinary(m: MappingConfig, m': MappingConfig) {
    m.mappingID == m'.mappingID && !ToSOCKS5(m) && !ToSOCKS5(m')
  }

  /** The last ordinary configuration of an ID is one of them. */
  lemma {:induction false} LastOrdinaryIs(update: seq<MappingConfig>, i: nat) returns (j: nat)
    requires i < |update| && !ToSOCKS5(update[i])
    ensures j < |update| && SameOrdinary(update[i], update[j])
    ensures LastOrdinary(update, update[i].mappingID) == Some(update[j])
    decreases |update|
  {
    hide ToSOCKS5;
    j := |update| - 1;
    if update[j].mappingID != update[i].mappingID || ToSOCKS5(update[j]) {
      j := LastOrdinaryIs(update[..j], i);
    }
  }

  lemma ServedAfterUpdate(c: Client, update: seq<MappingConfig>, w: World, i: nat)
    requires Tidy(c) && Agreeing(update) && w.manager && w.own && AllStart(w, |update|) && i < |update|
    ensures Served(Update(c, update, w), update[i])
  {
    hide LastOf, LastOrdinary, Update, ToSOCKS5, Runnable, FirstSOCKS5, Tidy, AllStart;
    var m := update[i];
    if ToSOCKS5(m) {
      assert m.mappingID in SOCKS5IDs(update);
      FirstSOCKS5Is(update, m.mappingID);
      ListenerKeepsOldConfig(c, update, w, m.mappingID);
    } else {
      SlotAfterUpdate(c, update, w, m.mappingID);
      var j := LastOrdinaryIs(update, i);
      NamedIff(update, m.mappingID);
    }
  }

  lemma OnlyNamed<V>(m: map<string, V>, named: set<string>)
    ensures var kept := m - (m.Keys - named); kept.Keys - named == {} && kept - {} == kept
  {}

  lemma NothingUnnamed(c: Client, update: seq<MappingConfig>, w: World, w': World)
    requires w.manager
    ensures DropUnnamed(DropUnnamed(c, update, w), update, w') == DropUnnamed(c, update, w)
  {
    hide IDs, SOCKS5IDs;
    OnlyNamed(c.handlers, IDs(update));
    OnlyNamed(c.listeners, SOCKS5IDs(update));
    var d := DropUnnamed(c, update, w);
    assert d.stopped + multiset({}) == d.stopped;
  }

  /** When an agreeing update has been applied and everything started, applying it again starts
      nothing, stops nothing and changes nothing, whatever the world would do the second time. */
  lemma ReapplyingIsIdle(c: Client, update: seq<MappingConfig>, w: World, w': World)
    requires Tidy(c) && Agreeing(update) && w.manager && w.own && AllStart(w, |update|)
    ensures Update(Update(c, update, w), update, w') == Update(c, update, w)
  {
    var d := Update(c, update, w);
    forall i: nat | i < |update|
      ensures Served(d, update[i])
    {
      ServedAfterUpdate(c, update, w, i);
    }
    hide Served, Agreeing, ReceiveAll, DropUnnamed, Tidy, AllStart;
    AllServedIsKept(d, update, w');
    NothingUnnamed(ReceiveAll(c, update, w), update, w, w');
  }

  /** How much was started and stopped. */
  function Work(c: Client): nat {
    |c.started| + |c.stopped|
  }

  /** A step never takes work back, and one that does no work leaves the handlers alone and finds
      them as the configuration asks for, if a listener would start. */
  lemma WorkGrows(c: Client, m: MappingConfig, w: World)
    requires Tidy(c)
    ensures var c' := Receive(c, m, w, true);
            && Work(c') >= Work(c)
            && (Work(c') == Work(c) ==>
                  c'.handlers == c.handlers && (!ToSOCKS5(m) ==> Slot(c, m.mappingID) == IfRunnable(m)))
  {
    hide IsSOCKS5Protocol;
    if m.mappingID in c.handlers {
      ConfigEqualIff(c.handlers[m.mappingID], m);
    }
    hide IsMappingConfigEqual;
  }

  lemma {:induction false} IdleMeansServed(c: Client, update: seq<MappingConfig>, w: World)
    requires Tidy(c) && AllStart(w, |update|)
    ensures var c' := ReceiveAll(c, update, w);
            && Tidy(c') && Work(c') >= Work(c)
            && (Work(c') == Work(c) ==>
                  && c'.handlers == c.handlers
                  && forall i :: 0 <= i < |update| && !ToSOCKS5(update[i]) ==>
                                   Slot(c, update[i].mappingID) == IfRunnable(update[i]))
    decreases |update|
  {
    hide ToSOCKS5, Receive, Tidy, Work, IfRunnable;
    if |update| > 0 {
      var init, m := update[..|update| - 1], update[|update| - 1];
      IdleMeansServed(c, init, w);
      WorkGrows(ReceiveAll(c, init, w), m, w);
      SlotAfterReceive(ReceiveAll(c, init, w), m, w, true, m.mappingID);
    }
  }

  /** Main result: an update that was applied is idle when it is applied again, and its listeners
      can start, if and only if for each ID its ordinary configurations are all the same one or
      none of them can run. */
  lemma ReapplyingIsIdleIff(c: Client, update: seq<MappingConfig>, w: World, w': World)
    requires Tidy(c) && w.manager && w.own && AllStart(w, |update|) && AllStart(w', |update|)
    ensures Update(Update(c, update, w), update, w') == Update(c, update, w) <==> Agreeing(update)
  {
    hide Update, Agreeing, Tidy, AllStart;
    if Agreeing(update) {
      ReapplyingIsIdle(c, update, w, w');
    }
    SlotAfterUpdate(c, update, w, "");
    if Update(Update(c, update, w), update, w') == Update(c, update, w) {
      IdleMeansAgreeing(Update(c, update, w), update, w');
    }
  }

  lemma IdleMeansAgreeing(d: Client, update: seq<MappingConfig>, w: World)
    requires Tidy(d) && AllStart(w, |update|) && Update(d, update, w) == d
    ensures Agreeing(update)
  {
    hide ToSOCKS5, Receive, ReceiveAll, Tidy, IfRunnable, IDs, SOCKS5IDs, AllStart;
    IdleMeansServed(d, update, w);
  }

  /** In particular an update without repeated IDs agrees. */
  lemma DuplicateFreeAgrees(update: seq<MappingConfig>)
    requires forall i, j :: 0 <= i < j < |update| ==> update[i].mappingID != update[j].mappingID
    ensures Agreeing(update)
  {}

  /** One that does not: two configurations of one ID take turns for ever. */
  lemma RepeatedIDIsNotIdle()
    ensures var other := EXAMPLE.(targetPort := 81);
            var c := Client(map["m" := other], map[], multiset{"m"}, multiset{});
            && Update(c, [EXAMPLE, other], EVERYTHING).handlers == c.handlers
            && Update(c, [EXAMPLE, other], EVERYTHING).stopped == multiset{"m", "m"}
  {
    var other := EXAMPLE.(targetPort := 81);
    var c := Client(map["m" := other], map[], multiset{"m"}, multiset{});
    ReceiveOne(c, EXAMPLE, EVERYTHING);
    var c1 := Receive(c, EXAMPLE, EVERYTHING, true);
    assert c1.handlers == map["m" := EXAMPLE] && c1.stopped == multiset{"m"};
    assert [EXAMPLE, other][..1] == [EXAMPLE];
    var c2 := ReceiveAll(c, [EXAMPLE, other], EVERYTHING);
    assert c2 == Receive(c1, other, EVERYTHING, true);
    assert c2.handlers == map["m" := other] && c2.stopped == multiset{"m", "m"};
    assert other in [EXAMPLE, other];
    assert "m" in IDs([EXAMPLE, other]);
  }
}
