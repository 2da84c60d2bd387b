/** The database-backed MCP configuration storage and the clients manager it
    drives: checkAndRefreshClients issues the reconciliation operations on
    the manager's live clients, each of which may fail on its own. */
module McpStorage {
  import opened Wrappers
  import opened Rows
  import opened Seqs
  import opened Repositories
  import opened McpReconcile

  /** The config held under id, if any. */
  function Lookup(clients: map<Id, ServerConfig>, id: Id): Option<ServerConfig>
  {
    if id in clients then Some(clients[id]) else None
  }

  ghost predicate KeyedClients(clients: map<Id, ServerConfig>)
  {
    forall k :: k in clients ==> clients[k].id == k
  }

  /** live lists exactly the clients of the map (what getClients returns). */
  ghost predicate ListsClients(live: seq<ServerConfig>, clients: map<Id, ServerConfig>)
  {
    DistinctIds(live) && forall c :: c in live <==> c.id in clients && clients[c.id] == c
  }

  // =====================================================================
  // The effect of the operations on the live clients.

  /** One operation, unless its id is among the failed ones. A refresh
      reconnects a live client with the stored config for its id; it fails
      (and changes nothing) when the client is not live or no config is
      stored. */
  function ApplyOp(clients: map<Id, ServerConfig>, op: Op, stored: seq<ServerConfig>, failed: set<Id>): map<Id, ServerConfig>
  {
    if op.id in failed then clients
    else
      match op
      case AddClient(id, name, config) => clients[id := ServerConfig(id, name, config)]
      case RefreshClient(id) =>
        if id in clients && FindById(stored, id).Some? then clients[id := FindById(stored, id).value] else clients
      case RemoveClient(id) => clients - {id}
  }

  /** The operations one after the other. */
  function ApplyAll(clients: map<Id, ServerConfig>, ops: seq<Op>, stored: seq<ServerConfig>, failed: set<Id>): map<Id, ServerConfig>
    decreases |ops|
  {
    if ops == [] then clients
    else ApplyOp(ApplyAll(clients, ops[..|ops| - 1], stored, failed), ops[|ops| - 1], stored, failed)
  }

  /** The effect of one operation on the entry under id alone. */
  function ApplyOpAt(cur: Option<ServerConfig>, op: Op, id: Id, stored: seq<ServerConfig>, failed: set<Id>): Option<ServerConfig>
  {
    if op.id != id || op.id in failed then cur
    else
      match op
      case AddClient(_, name, config) => Some(ServerConfig(id, name, config))
      case RefreshClient(_) => if cur.Some? && FindById(stored, id).Some? then FindById(stored, id) else cur
      case RemoveClient(_) => None
  }

  function ApplyAllAt(cur: Option<ServerConfig>, ops: seq<Op>, id: Id, stored: seq<ServerConfig>, failed: set<Id>): Option<ServerConfig>
    decreases |ops|
  {
    if ops == [] then cur
    else ApplyOpAt(ApplyAllAt(cur, ops[..|ops| - 1], id, stored, failed), ops[|ops| - 1], id, stored, failed)
  }

  lemma ApplyOpLookup(clients: map<Id, ServerConfig>, op: Op, id: Id, stored: seq<ServerConfig>, failed: set<Id>)
    ensures Lookup(ApplyOp(clients, op, stored, failed), id) == ApplyOpAt(Lookup(clients, id), op, id, stored, failed)
  {
  }

  /** The entry under id after a batch depends only on its entry before. */
  lemma {:induction false} ApplyAllLookup(clients: map<Id, ServerConfig>, ops: seq<Op>, id: Id, stored: seq<ServerConfig>, failed: set<Id>)
    ensures Lookup(ApplyAll(clients, ops, stored, failed), id) == ApplyAllAt(Lookup(clients, id), ops, id, stored, failed)
    decreases |ops|
  {
    if ops != [] {
      var init := ops[..|ops| - 1];
      ApplyAllLookup(clients, init, id, stored, failed);
      ApplyOpLookup(ApplyAll(clients, init, stored, failed), ops[|ops| - 1], id, stored, failed);
    }
  }

  lemma {:induction false} ApplyAllAtConcat(cur: Option<ServerConfig>, a: seq<Op>, b: seq<Op>, id: Id, stored: seq<ServerConfig>, failed: set<Id>)
    ensures ApplyAllAt(cur, a + b, id, stored, failed) == ApplyAllAt(ApplyAllAt(cur, a, id, stored, failed), b, id, stored, failed)
    decreases |b|
  {
    if b == [] {
      assert a + b == a;
    } else {
      var binit := b[..|b| - 1];
      assert (a + b)[..|a + b| - 1] == a + binit;
      ApplyAllAtConcat(cur, a, binit, id, stored, failed);
    }
  }

  /** Operations on other ids do not touch the entry under id. */
  lemma {:induction false} ApplyAllAtOpsOn(cur: Option<ServerConfig>, ops: seq<Op>, id: Id, stored: seq<ServerConfig>, failed: set<Id>)
    ensures ApplyAllAt(cur, ops, id, stored, failed) == ApplyAllAt(cur, OpsOn(ops, id), id, stored, failed)
    decreases |ops|
  {
    if ops != [] {
      var init, last := ops[..|ops| - 1], ops[|ops| - 1];
      assert ops == init + [last];
      ApplyAllAtOpsOn(cur, init, id, stored, failed);
      FilterConcat(init, [last], Targets(id));
      var mid := ApplyAllAt(cur, OpsOn(init, id), id, stored, failed);
      ApplyAllAtConcat(cur, OpsOn(init, id), OpsOn([last], id), id, stored, failed);
      assert OpsOn([last], id) == if last.id == id then [last] else [] by {
        assert [last][1..] == [];
      }
      if last.id == id {
        assert ApplyAllAt(mid, [last], id, stored, failed) == ApplyOpAt(mid, last, id, stored, failed) by {
          assert [last][..0] == [];
        }
      }
    }
  }

  /** The entry under id after a batch is the effect of the batch's
      operations on id alone. */
  lemma LookupAfterOps(clients: map<Id, ServerConfig>, ops: seq<Op>, id: Id, stored: seq<ServerConfig>, failed: set<Id>)
    ensures Lookup(ApplyAll(clients, ops, stored, failed), id) ==
            ApplyAllAt(Lookup(clients, id), OpsOn(ops, id), id, stored, failed)
  {
    ApplyAllLookup(clients, ops, id, stored, failed);
    ApplyAllAtOpsOn(Lookup(clients, id), ops, id, stored, failed);
  }

  /** getClients lists the clients: a lookup in the list is a lookup in the
      map. */
  lemma ListedLookup(live: seq<ServerConfig>, clients: map<Id, ServerConfig>, id: Id)
    requires KeyedClients(clients) && ListsClients(live, clients)
    ensures FindById(live, id) == Lookup(clients, id)
  {
    if id in clients {
      FindByIdIs(live, clients[id]);
    }
  }

  // =====================================================================
  // Convergence.

  /** The intended operations on one id take its entry from the live
      config to the persisted one, unless the operation fails. */
  lemma ApplyIntended(cur: Option<ServerConfig>, p: Option<ServerConfig>, id: Id, stored: seq<ServerConfig>, failed: set<Id>)
    requires cur.Some? ==> cur.value.id == id
    requires p.Some? ==> p.value.id == id
    requires p == FindById(stored, id)
    ensures ApplyAllAt(cur, Intended(p, cur), id, stored, failed) == if id in failed then cur else p
  {
    var ops := Intended(p, cur);
    if ops != [] {
      assert ops[..0] == [];
      assert ApplyAllAt(cur, ops, id, stored, failed) == ApplyOpAt(cur, ops[0], id, stored, failed);
    }
  }

  /** After checkAndRefreshClients issued its operations, every id whose
      operation did not fail holds exactly the persisted config (or nothing,
      when none is persisted), and every id whose operation failed keeps
      what it held. */
  lemma {:induction false} ReconcileConverges(clients: map<Id, ServerConfig>, live: seq<ServerConfig>,
                                              persisted: seq<ServerConfig>, failed: set<Id>, id: Id)
    requires KeyedClients(clients) && ListsClients(live, clients) && DistinctIds(persisted)
    ensures Lookup(ApplyAll(clients, Reconcile(persisted, live), persisted, failed), id) ==
            if id in failed then Lookup(clients, id) else FindById(persisted, id)
  {
    var ops := Reconcile(persisted, live);
    var cur, p := Lookup(clients, id), FindById(persisted, id);
    LookupAfterOps(clients, ops, id, persisted, failed);
    ReconcileOn(persisted, live, id);
    ListedLookup(live, clients, id);
    assert OpsOn(ops, id) == Intended(p, cur);
    ApplyIntended(cur, p, id, persisted, failed);
  }

  /** A read of the persisted configs that fails yields no configs, whatever
      the table holds, so every live client whose removal does not fail is
      removed. */
  lemma ReadFailureRemovesClients(servers: seq<McpServerRow>, clients: map<Id, ServerConfig>, live: seq<ServerConfig>,
                                  failed: set<Id>, id: Id)
    requires KeyedClients(clients) && ListsClients(live, clients)
    requires id !in failed
    ensures var persisted := ToConfigs(SelectAllServers(servers, true));
            id !in ApplyAll(clients, Reconcile(persisted, live), persisted, failed)
  {
    assert ToConfigs(SelectAllServers(servers, true)) == [];
    ReconcileConverges(clients, live, [], failed, id);
  }

  /** The configs under which the manager should end up: one per persisted
      row, by id. */
  function PersistedClients(persisted: seq<ServerConfig>): (r: map<Id, ServerConfig>)
    requires DistinctIds(persisted)
    ensures KeyedClients(r)
    ensures forall c :: c in persisted <==> c.id in r && r[c.id] == c
  {
    var m := map c | c in persisted :: c.id := c;
    assert forall c :: c in persisted ==> c.id in m && m[c.id] == c by {
      forall c | c in persisted ensures c.id in m && m[c.id] == c {
        forall c2 | c2 in persisted && c2.id == c.id ensures c2 == c {
          KeyDetermines(persisted, ConfigKey, c, c2);
        }
      }
    }
    m
  }

  /** Two maps with the same lookups are equal. */
  lemma LookupExtensional(a: map<Id, ServerConfig>, b: map<Id, ServerConfig>)
    requires forall id :: Lookup(a, id) == Lookup(b, id)
    ensures a == b
  {
    assert a.Keys == b.Keys by {
      forall id ensures id in a <==> id in b {
        assert Lookup(a, id).Some? <==> Lookup(b, id).Some?;
      }
    }
    forall id | id in a ensures a[id] == b[id] {
      assert Lookup(a, id) == Lookup(b, id);
    }
  }

  lemma PersistedLookup(persisted: seq<ServerConfig>, id: Id)
    requires DistinctIds(persisted)
    ensures Lookup(PersistedClients(persisted), id) == FindById(persisted, id)
  {
    var want := PersistedClients(persisted);
    var p := FindById(persisted, id);
    if p.Some? {
      assert p.value in persisted;
    }
  }

  /** When no operation fails the manager ends up holding exactly the
      persisted configs. */
  lemma ConvergesToPersisted(clients: map<Id, ServerConfig>, live: seq<ServerConfig>, persisted: seq<ServerConfig>)
    requires KeyedClients(clients) && ListsClients(live, clients) && DistinctIds(persisted)
    ensures ApplyAll(clients, Reconcile(persisted, live), persisted, {}) == PersistedClients(persisted)
  {
    var after := ApplyAll(clients, Reconcile(persisted, live), persisted, {});
    forall id ensures Lookup(after, id) == Lookup(PersistedClients(persisted), id) {
      ReconcileConverges(clients, live, persisted, {}, id);
      PersistedLookup(persisted, id);
    }
    LookupExtensional(after, PersistedClients(persisted));
  }

  /** After a reconciliation in which nothing failed, a second one issues
      nothing. */
  lemma ReconcileIdempotent(clients: map<Id, ServerConfig>, live: seq<ServerConfig>, persisted: seq<ServerConfig>,
                            live2: seq<ServerConfig>)
    requires KeyedClients(clients) && ListsClients(live, clients) && DistinctIds(persisted)
    requires ListsClients(live2, ApplyAll(clients, Reconcile(persisted, live), persisted, {}))
    ensures Reconcile(persisted, live2) == []
  {
    ConvergesToPersisted(clients, live, persisted);
    NoOpsWhenInSync(persisted, live2);
  }

  /** Promise.allSettled over the operations: each is issued on the manager
      in turn, and one that fails leaves the manager as it was. */
  method IssueAll(m: ClientsManager, ops: seq<Op>, stored: seq<ServerConfig>, failed: set<Id>)
    requires m.Valid()
    modifies m
    ensures m.Valid()
    ensures m.clients == ApplyAll(old(m.clients), ops, stored, failed)
  {
    var i := 0;
    while i < |ops|
      invariant 0 <= i <= |ops|
      invariant m.Valid()
      invariant m.clients == ApplyAll(old(m.clients), ops[..i], stored, failed)
    {
      var op := ops[i];
      assert ops[..i + 1][..i] == ops[..i];
      if op.id !in failed {
        match op {
          case AddClient(id, name, config) =>
            m.AddClient(id, name, config);
          case RefreshClient(id) =>
            var _ := m.RefreshClient(id, FindById(stored, id));
          case RemoveClient(id) =>
            m.RemoveClient(id);
        }
      }
      i := i + 1;
    }
    assert ops[..|ops|] == ops;
  }

  // =====================================================================
  // The classes.

  /** The live MCP clients, each under its id with the name and config it
      was started with. */
  class ClientsManager {
    var clients: map<Id, ServerConfig>

    ghost predicate Valid()
      reads this
    {
      KeyedClients(clients)
    }

    constructor()
      ensures Valid() && clients == map[]
    {
      clients := map[];
    }

    /** getClients: every live client, once, in the order of the map. */
    method GetClients() returns (r: seq<ServerConfig>)
      requires Valid()
      ensures ListsClients(r, clients)
    {
      r := [];
      var pending := clients.Keys;
      while pending != {}
        invariant pending <= clients.Keys
        invariant DistinctIds(r)
        invariant forall c :: c in r <==> c.id in clients.Keys - pending && clients[c.id] == c
        decreases |pending|
      {
        var k :| k in pending;
        forall c | c in r ensures c.id != k {
        }
        r := r + [clients[k]];
        pending := pending - {k};
      }
    }

    /** getClient: the live client under id, if any. */
    method GetClient(id: Id) returns (r: Option<ServerConfig>)
      ensures r.Some? <==> id in clients
      ensures r.Some? ==> r.value == clients[id]
    {
      if id in clients {
        return Some(clients[id]);
      }
      return None;
    }

    /** addClient: start a client for (id, name, config). */
    method AddClient(id: Id, name: string, config: Json)
      requires Valid()
      modifies this
      ensures Valid()
      ensures clients == old(clients)[id := ServerConfig(id, name, config)]
    {
      clients := clients[id := ServerConfig(id, name, config)];
    }

    /** refreshClient: reconnect a live client with the config stored for
        it; fails when the client is not live or nothing is stored. */
    method RefreshClient(id: Id, stored: Option<ServerConfig>) returns (ok: bool)
      requires Valid()
      requires stored.Some? ==> stored.value.id == id
      modifies this
      ensures Valid()
      ensures ok <==> id in old(clients) && stored.Some?
      ensures ok ==> clients == old(clients)[id := stored.value]
      ensures !ok ==> clients == old(clients)
    {
      if id !in clients || stored.None? {
        return false;
      }
      clients := clients[id := stored.value];
      return true;
    }

    /** removeClient: stop the client under id. */
    method RemoveClient(id: Id)
      requires Valid()
      modifies this
      ensures Valid()
      ensures clients == old(clients) - {id}
    {
      clients := clients - {id};
    }
  }

  /** createDbBasedMCPConfigsStorage: the storage over the mcp_servers
      table, and the manager it is initialised with (none before init). */
  class DbConfigStorage {
    var manager: ClientsManager?
    const db: Database

    constructor(db: Database)
      ensures this.db == db && manager == null
    {
      this.db := db;
      manager := null;
    }

    /** init: remember the manager. */
    method Init(m: ClientsManager)
      modifies this
      ensures manager == m
    {
      manager := m;
    }

    /** checkAndRefreshClients, given whether the read of the persisted
        configs fails and the ids whose operation fails. Before init there
        is no manager: the error is caught and nothing happens. Otherwise
        every id converges to its persisted config, except those whose
        operation failed, which keep their client. */
    method CheckAndRefreshClients(readFails: bool, failed: set<Id>)
      requires db.Valid()
      requires manager != null ==> manager.Valid()
      modifies manager
      ensures manager != null ==> manager.Valid()
      ensures manager != null ==>
                forall id :: Lookup(manager.clients, id) ==
                  if id in failed then Lookup(old(manager.clients), id)
                  else FindById(ToConfigs(SelectAllServers(db.mcpServers, readFails)), id)
    {
      var m := manager;
      if m == null {
        return;
      }
      var persisted := ToConfigs(SelectAllServers(db.mcpServers, readFails));
      ToConfigsDistinct(SelectAllServers(db.mcpServers, readFails));
      var live := m.GetClients();
      var ops := Reconcile(persisted, live);
      IssueAll(m, ops, persisted, failed);
      forall id
        ensures Lookup(m.clients, id) == if id in failed then Lookup(old(m.clients), id) else FindById(persisted, id)
      {
        ReconcileConverges(old(m.clients), live, persisted, failed, id);
      }
    }

    /** save: the server is saved as given, with enabled defaulting to
        true, under its own id or a new one. */
    method Save(server: McpServerInput, newId: Id, queryFails: bool) returns (r: Result<McpServerRow>)
      requires db.Valid()
      modifies db`mcpServers
      ensures db.Valid()
      ensures queryFails ==> r.Err? && db.mcpServers == old(db.mcpServers)
      ensures !queryFails ==>
                r == Ok(McpServerRow(server.id.GetOr(newId), server.name, server.config, server.enabled.GetOr(true))) &&
                db.mcpServers == Upsert(old(db.mcpServers), r.value, McpServerKey)
    {
      r := db.SaveServer(server.(enabled := Some(server.enabled.GetOr(true))), newId, queryFails);
    }

    /** delete: the row is deleted; an error is rethrown. */
    method Delete(id: Id, queryFails: bool) returns (r: Result<()>)
      requires db.Valid()
      modifies db`mcpServers
      ensures db.Valid()
      ensures queryFails ==> r.Err? && db.mcpServers == old(db.mcpServers)
      ensures !queryFails ==> r.Ok? && forall s :: s in db.mcpServers <==> s in old(db.mcpServers) && s.id != id
    {
      r := db.DeleteServer(id, queryFails);
    }

    /** has: whether a row with the id exists; false when the lookup errs. */
    function Has(id: Id, queryFails: bool): (r: bool)
      reads this, db
      ensures r <==> !queryFails && exists s :: s in db.mcpServers && s.id == id
    {
      SelectServerById(db.mcpServers, id, queryFails).Some?
    }

    /** get: the row with the id, null when absent or on error. */
    function Get(id: Id, queryFails: bool): (r: Option<McpServerRow>)
      reads this, db
      ensures r.Some? ==> !queryFails && r.value in db.mcpServers && r.value.id == id
      ensures r.None? <==> queryFails || forall s :: s in db.mcpServers ==> s.id != id
    {
      SelectServerById(db.mcpServers, id, queryFails)
    }
  }
}
