/** The decision part of checkAndRefreshClients: compare the persisted MCP
    server configurations with the clients the manager holds, and decide
    which clients to add, refresh or remove. Pure: the operations are
    returned as a list and applied by McpStorage. */
module McpReconcile {
  import opened Wrappers
  import opened Rows
  import opened Seqs

  /** The comparable view of one server: id, name and connection config. */
  datatype ServerConfig = ServerConfig(id: Id, name: string, config: Json)

  /** An operation issued on the clients manager. */
  datatype Op =
    | AddClient(id: Id, name: string, config: Json)
    | RefreshClient(id: Id)
    | RemoveClient(id: Id)

  function ConfigKey(c: ServerConfig): Id { c.id }

  predicate DistinctIds(s: seq<ServerConfig>) { DistinctKeys(s, ConfigKey) }

  /** The projection of persisted rows to their configs. */
  function ToConfigs(rows: seq<McpServerRow>): (r: seq<ServerConfig>)
    ensures |r| == |rows|
    ensures forall i :: 0 <= i < |rows| ==> r[i] == ServerConfig(rows[i].id, rows[i].name, rows[i].config)
  {
    seq(|rows|, i requires 0 <= i < |rows| => ServerConfig(rows[i].id, rows[i].name, rows[i].config))
  }

  lemma ToConfigsDistinct(rows: seq<McpServerRow>)
    requires DistinctKeys(rows, McpServerKey)
    ensures DistinctIds(ToConfigs(rows))
  {
    var r := ToConfigs(rows);
    forall i, j | 0 <= i < j < |r| ensures ConfigKey(r[i]) != ConfigKey(r[j]) {
      assert McpServerKey(rows[i]) != McpServerKey(rows[j]);
    }
  }

  // ---------------------------------------------------------------------
  // Ordering of ids. localeCompare is modelled as the lexicographic order
  // of code units: any strict total order would do.

  predicate IdBefore(a: string, b: string)
    decreases |a|
  {
    if a == [] then b != []
    else if b == [] then false
    else if a[0] != b[0] then a[0] < b[0]
    else IdBefore(a[1..], b[1..])
  }

  lemma {:induction false} IdBeforeIrreflexive(a: string)
    ensures !IdBefore(a, a)
    decreases |a|
  {
    if a != [] {
      IdBeforeIrreflexive(a[1..]);
    }
  }

  lemma {:induction false} IdBeforeAsymmetric(a: string, b: string)
    ensures !(IdBefore(a, b) && IdBefore(b, a))
    decreases |a|
  {
    if a != [] && b != [] && a[0] == b[0] {
      IdBeforeAsymmetric(a[1..], b[1..]);
    }
  }

  lemma {:induction false} IdBeforeTransitive(a: string, b: string, c: string)
    requires IdBefore(a, b) && IdBefore(b, c)
    ensures IdBefore(a, c)
    decreases |a|
  {
    if a != [] && a[0] == b[0] && b[0] == c[0] {
      IdBeforeTransitive(a[1..], b[1..], c[1..]);
    }
  }

  lemma {:induction false} IdBeforeTotal(a: string, b: string)
    requires a != b
    ensures IdBefore(a, b) || IdBefore(b, a)
    decreases |a|
  {
    if a != [] && b != [] && a[0] == b[0] {
      assert a == [a[0]] + a[1..] && b == [b[0]] + b[1..];
      IdBeforeTotal(a[1..], b[1..]);
    }
  }

  // ---------------------------------------------------------------------
  // Sorting by id: `.sort((a, b) => a.id.localeCompare(b.id))`.

  /** Strictly increasing ids. */
  predicate SortedById(s: seq<ServerConfig>)
  {
    forall i, j :: 0 <= i < j < |s| ==> IdBefore(s[i].id, s[j].id)
  }

  function Insert(c: ServerConfig, s: seq<ServerConfig>): (r: seq<ServerConfig>)
    ensures multiset(r) == multiset(s) + multiset{c}
    decreases |s|
  {
    if s == [] then [c]
    else if IdBefore(s[0].id, c.id) then
      assert s == [s[0]] + s[1..];
      [s[0]] + Insert(c, s[1..])
    else [c] + s
  }

  /** Insertion sort by id; stable, as Array.prototype.sort is. */
  function SortById(s: seq<ServerConfig>): (r: seq<ServerConfig>)
    ensures multiset(r) == multiset(s)
    decreases |s|
  {
    if s == [] then []
    else
      assert s == [s[0]] + s[1..];
      Insert(s[0], SortById(s[1..]))
  }

  lemma {:induction false} InsertSorted(c: ServerConfig, s: seq<ServerConfig>)
    requires SortedById(s)
    requires forall x :: x in s ==> x.id != c.id
    ensures SortedById(Insert(c, s))
    decreases |s|
  {
    if s == [] {
    } else if IdBefore(s[0].id, c.id) {
      InsertSorted(c, s[1..]);
      var tail := Insert(c, s[1..]);
      var r := [s[0]] + tail;
      forall j | 1 <= j < |r| ensures IdBefore(s[0].id, r[j].id) {
        assert r[j] in multiset(tail);
        if r[j] != c {
          assert r[j] in s[1..];
          var k :| 0 <= k < |s[1..]| && s[1..][k] == r[j];
          assert s[k + 1] == r[j];
        }
      }
    } else {
      assert s[0] in s;
      IdBeforeTotal(s[0].id, c.id);
      forall j | 0 <= j < |s| ensures IdBefore(c.id, s[j].id) {
        if j > 0 {
          IdBeforeTransitive(c.id, s[0].id, s[j].id);
        }
      }
    }
  }

  /** With distinct ids, the sort yields a strictly increasing sequence. */
  lemma {:induction false} SortSorted(s: seq<ServerConfig>)
    requires DistinctIds(s)
    ensures SortedById(SortById(s))
    decreases |s|
  {
    if s != [] {
      var rest := s[1..];
      assert DistinctIds(rest) by {
        forall i, j | 0 <= i < j < |rest| ensures ConfigKey(rest[i]) != ConfigKey(rest[j]) {
          assert rest[i] == s[i + 1] && rest[j] == s[j + 1];
        }
      }
      SortSorted(rest);
      forall x | x in SortById(rest) ensures x.id != s[0].id {
        assert x in multiset(SortById(rest));
        var k :| 0 <= k < |rest| && rest[k] == x;
        assert ConfigKey(s[0]) != ConfigKey(s[k + 1]);
      }
      InsertSorted(s[0], SortById(rest));
    }
  }

  lemma SortedDistinct(s: seq<ServerConfig>)
    requires SortedById(s)
    ensures DistinctIds(s)
  {
    forall i, j | 0 <= i < j < |s| ensures ConfigKey(s[i]) != ConfigKey(s[j]) {
      IdBeforeIrreflexive(s[i].id);
    }
  }

  /** Two strictly sorted sequences with the same elements are equal. */
  lemma {:induction false} SortedUnique(a: seq<ServerConfig>, b: seq<ServerConfig>)
    requires SortedById(a) && SortedById(b)
    requires forall x :: x in a <==> x in b
    ensures a == b
    decreases |a|
  {
    if a != [] {
      assert a[0] in b;
    }
    if b != [] {
      assert b[0] in a;
    }
    if a != [] {
      assert a[0] in a;
      assert b != [];
      var k :| 0 <= k < |b| && b[k] == a[0];
      if k != 0 {
        assert b[0] in b;
        var m :| 0 <= m < |a| && a[m] == b[0];
        if m == 0 {
          IdBeforeIrreflexive(b[0].id);
        } else {
          IdBeforeAsymmetric(a[0].id, b[0].id);
        }
      }
      forall x ensures x in a[1..] <==> x in b[1..] {
        if x in a[1..] {
          var i :| 0 <= i < |a[1..]| && a[1..][i] == x;
          assert IdBefore(a[0].id, a[i + 1].id);
          IdBeforeIrreflexive(x.id);
          assert x in b && x != b[0];
          assert b == [b[0]] + b[1..];
        }
        if x in b[1..] {
          var i :| 0 <= i < |b[1..]| && b[1..][i] == x;
          assert IdBefore(b[0].id, b[i + 1].id);
          IdBeforeIrreflexive(x.id);
          assert x in a && x != a[0];
          assert a == [a[0]] + a[1..];
        }
      }
      SortedUnique(a[1..], b[1..]);
      assert a == [a[0]] + a[1..] && b == [b[0]] + b[1..];
    }
  }

  /** The sorted list depends only on which configs there are, not on the
      order in which the query or the manager returned them. */
  lemma SortOrderIndependent(s1: seq<ServerConfig>, s2: seq<ServerConfig>)
    requires DistinctIds(s1) && DistinctIds(s2)
    requires forall x :: x in s1 <==> x in s2
    ensures SortById(s1) == SortById(s2)
  {
    SortSorted(s1);
    SortSorted(s2);
    var r1, r2 := SortById(s1), SortById(s2);
    forall x ensures x in r1 <==> x in r2 {
      calc {
        x in r1;
        x in multiset(r1);
        x in multiset(s1);
        x in s1;
        x in s2;
        x in multiset(s2);
        x in multiset(r2);
        x in r2;
      }
    }
    SortedUnique(r1, r2);
  }

  // ---------------------------------------------------------------------
  // Lookups: manager.getClient(id) and dbConfigs.find(c2 => c2.id === id).

  function FindById(s: seq<ServerConfig>, id: Id): (r: Option<ServerConfig>)
    ensures r.Some? ==> r.value in s && r.value.id == id
    ensures r.None? ==> forall x :: x in s ==> x.id != id
    decreases |s|
  {
    if s == [] then None
    else if s[0].id == id then Some(s[0])
    else
      assert s == [s[0]] + s[1..];
      FindById(s[1..], id)
  }

  /** Dropping the first config keeps the ids distinct, and none of the
      remaining configs has the first one's id. */
  lemma DistinctTail(s: seq<ServerConfig>)
    requires DistinctIds(s) && s != []
    ensures DistinctIds(s[1..])
    ensures forall x :: x in s[1..] ==> x.id != s[0].id
  {
    var rest := s[1..];
    forall i, j | 0 <= i < j < |rest| ensures ConfigKey(rest[i]) != ConfigKey(rest[j]) {
      assert rest[i] == s[i + 1] && rest[j] == s[j + 1];
    }
    forall x | x in rest ensures x.id != s[0].id {
      var k :| 0 <= k < |rest| && rest[k] == x;
      assert ConfigKey(s[0]) != ConfigKey(s[k + 1]);
    }
  }

  /** With distinct ids, a lookup by id finds the one config with that id. */
  lemma FindByIdIs(s: seq<ServerConfig>, c: ServerConfig)
    requires DistinctIds(s) && c in s
    ensures FindById(s, c.id) == Some(c)
  {
    var r := FindById(s, c.id);
    KeyDetermines(s, ConfigKey, r.value, c);
  }

  lemma FindByIdSameElements(a: seq<ServerConfig>, b: seq<ServerConfig>, id: Id)
    requires DistinctIds(a) && DistinctIds(b)
    requires forall x :: x in a <==> x in b
    ensures FindById(a, id) == FindById(b, id)
  {
    var ra := FindById(a, id);
    if ra.Some? {
      FindByIdIs(b, ra.value);
    }
  }

  lemma SortedSameElements(s: seq<ServerConfig>)
    requires DistinctIds(s)
    ensures DistinctIds(SortById(s))
    ensures forall x :: x in SortById(s) <==> x in s
  {
    SortSorted(s);
    SortedDistinct(SortById(s));
    forall x ensures x in SortById(s) <==> x in s {
      assert x in SortById(s) <==> x in multiset(SortById(s));
    }
  }

  // ---------------------------------------------------------------------
  // The decision.

  /** For one persisted config, given what the manager holds under its id:
      add when absent, refresh when name or config differ, else nothing. */
  function Decide(c: ServerConfig, live: Option<ServerConfig>): (r: seq<Op>)
    ensures |r| <= 1
    ensures forall i :: 0 <= i < |r| ==> r[i].id == c.id
  {
    match live
    case None => [AddClient(c.id, c.name, c.config)]
    case Some(m) =>
      if m.name == c.name && m.config == c.config then [] else [RefreshClient(c.id)]
  }

  /** dbConfigs.map(...): one decision per persisted config, in sorted order. */
  function PersistedOps(dbs: seq<ServerConfig>, live: seq<ServerConfig>): seq<Op>
    decreases |dbs|
  {
    if dbs == [] then []
    else Decide(dbs[0], FindById(live, dbs[0].id)) + PersistedOps(dbs[1..], live)
  }

  /** managerConfigs.filter(no persisted config with this id).map(removeClient). */
  function RemoveOps(mgr: seq<ServerConfig>, dbs: seq<ServerConfig>): seq<Op>
    decreases |mgr|
  {
    if mgr == [] then []
    else
      (if FindById(dbs, mgr[0].id).None? then [RemoveClient(mgr[0].id)] else [])
      + RemoveOps(mgr[1..], dbs)
  }

  /** The two sorted lists differ in length or content. */
  predicate ShouldRefresh(dbs: seq<ServerConfig>, mgr: seq<ServerConfig>)
  {
    |dbs| != |mgr| || dbs != mgr
  }

  /** The operations checkAndRefreshClients issues, given the persisted
      configs and the manager's clients, each in whatever order they came. */
  function Reconcile(persisted: seq<ServerConfig>, live: seq<ServerConfig>): seq<Op>
  {
    var dbs := SortById(persisted);
    var mgr := SortById(live);
    if ShouldRefresh(dbs, mgr) then PersistedOps(dbs, live) + RemoveOps(mgr, dbs) else []
  }

  // ---------------------------------------------------------------------
  // Reference definition: the diff of two id-keyed collections, one id at a
  // time.

  function Targets(id: Id): Op -> bool { (op: Op) => op.id == id }

  /** The operations of ops that concern id, in order. */
  function OpsOn(ops: seq<Op>, id: Id): seq<Op> { Filter(ops, Targets(id)) }

  /** What should happen to one id, given its persisted and live configs. */
  function Intended(persisted: Option<ServerConfig>, live: Option<ServerConfig>): seq<Op>
  {
    match (persisted, live)
    case (None, None) => []
    case (Some(c), None) => [AddClient(c.id, c.name, c.config)]
    case (None, Some(m)) => [RemoveClient(m.id)]
    case (Some(c), Some(m)) =>
      if (c.name, c.config) == (m.name, m.config) then [] else [RefreshClient(c.id)]
  }

  lemma {:induction false} PersistedOpsOn(dbs: seq<ServerConfig>, live: seq<ServerConfig>, id: Id)
    requires DistinctIds(dbs)
    ensures OpsOn(PersistedOps(dbs, live), id) ==
      match FindById(dbs, id)
      case None => []
      case Some(c) => Decide(c, FindById(live, id))
    decreases |dbs|
  {
    if dbs != [] {
      var c, rest := dbs[0], dbs[1..];
      DistinctTail(dbs);
      PersistedOpsOn(rest, live, id);
      var d := Decide(c, FindById(live, c.id));
      FilterConcat(d, PersistedOps(rest, live), Targets(id));
      if c.id == id {
        FilterKeepsAll(d, Targets(id));
        assert FindById(rest, id).None?;
      } else {
        FilterDropsAll(d, Targets(id));
      }
    }
  }

  lemma {:induction false} RemoveOpsOn(mgr: seq<ServerConfig>, dbs: seq<ServerConfig>, id: Id)
    requires DistinctIds(mgr)
    ensures OpsOn(RemoveOps(mgr, dbs), id) ==
      if FindById(mgr, id).Some? && FindById(dbs, id).None? then [RemoveClient(id)] else []
    decreases |mgr|
  {
    if mgr != [] {
      var m, rest := mgr[0], mgr[1..];
      DistinctTail(mgr);
      RemoveOpsOn(rest, dbs, id);
      var d := if FindById(dbs, m.id).None? then [RemoveClient(m.id)] else [];
      FilterConcat(d, RemoveOps(rest, dbs), Targets(id));
      if m.id == id {
        FilterKeepsAll(d, Targets(id));
        assert FindById(rest, id).None?;
      } else {
        FilterDropsAll(d, Targets(id));
      }
    }
  }

  /** When the sorted lists differ, the operations on id are the persisted
      decision for id followed by a removal when only the manager has it. */
  lemma RefreshingOn(dbs: seq<ServerConfig>, mgr: seq<ServerConfig>, live: seq<ServerConfig>, id: Id)
    requires DistinctIds(dbs) && DistinctIds(mgr)
    requires FindById(mgr, id) == FindById(live, id)
    ensures OpsOn(PersistedOps(dbs, live) + RemoveOps(mgr, dbs), id) ==
      Intended(FindById(dbs, id), FindById(live, id))
  {
    FilterConcat(PersistedOps(dbs, live), RemoveOps(mgr, dbs), Targets(id));
    PersistedOpsOn(dbs, live, id);
    RemoveOpsOn(mgr, dbs, id);
    var p, l := FindById(dbs, id), FindById(live, id);
    if p.Some? && l.Some? {
      assert Decide(p.value, l) == Intended(p, l);
    }
  }

  /** The main characterization: for every id, the operations Reconcile
      issues on that id are exactly the intended diff of the persisted and
      the live config under that id. */
  lemma ReconcileOn(persisted: seq<ServerConfig>, live: seq<ServerConfig>, id: Id)
    requires DistinctIds(persisted) && DistinctIds(live)
    ensures OpsOn(Reconcile(persisted, live), id) == Intended(FindById(persisted, id), FindById(live, id))
  {
    var dbs, mgr := SortById(persisted), SortById(live);
    SortedSameElements(persisted);
    SortedSameElements(live);
    FindByIdSameElements(dbs, persisted, id);
    FindByIdSameElements(mgr, live, id);
    if ShouldRefresh(dbs, mgr) {
      RefreshingOn(dbs, mgr, live, id);
      assert Reconcile(persisted, live) == PersistedOps(dbs, live) + RemoveOps(mgr, dbs);
    } else {
      assert Reconcile(persisted, live) == [];
      assert FindById(persisted, id) == FindById(live, id);
    }
  }

  // ---------------------------------------------------------------------
  // Consequences, one per promise of the reconciliation.

  /** Same configs on both sides, in whatever order: nothing is issued. */
  lemma NoOpsWhenInSync(persisted: seq<ServerConfig>, live: seq<ServerConfig>)
    requires DistinctIds(persisted) && DistinctIds(live)
    requires forall x :: x in persisted <==> x in live
    ensures Reconcile(persisted, live) == []
  {
    SortOrderIndependent(persisted, live);
  }

  /** A persisted server the manager does not hold is added, exactly once,
      with its persisted name and config, and nothing else happens to it. */
  lemma AddsMissingClient(persisted: seq<ServerConfig>, live: seq<ServerConfig>, c: ServerConfig)
    requires DistinctIds(persisted) && DistinctIds(live)
    requires c in persisted
    requires forall m :: m in live ==> m.id != c.id
    ensures OpsOn(Reconcile(persisted, live), c.id) == [AddClient(c.id, c.name, c.config)]
  {
    ReconcileOn(persisted, live, c.id);
    FindByIdIs(persisted, c);
  }

  /** A server held with a different name or config is refreshed exactly once. */
  lemma RefreshesChangedClient(persisted: seq<ServerConfig>, live: seq<ServerConfig>, c: ServerConfig, m: ServerConfig)
    requires DistinctIds(persisted) && DistinctIds(live)
    requires c in persisted && m in live && c.id == m.id
    requires c.name != m.name || c.config != m.config
    ensures OpsOn(Reconcile(persisted, live), c.id) == [RefreshClient(c.id)]
  {
    ReconcileOn(persisted, live, c.id);
    FindByIdIs(persisted, c);
    FindByIdIs(live, m);
  }

  /** A server held with the same name and config is left alone. */
  lemma KeepsUnchangedClient(persisted: seq<ServerConfig>, live: seq<ServerConfig>, c: ServerConfig)
    requires DistinctIds(persisted) && DistinctIds(live)
    requires c in persisted && c in live
    ensures OpsOn(Reconcile(persisted, live), c.id) == []
  {
    ReconcileOn(persisted, live, c.id);
    FindByIdIs(persisted, c);
    FindByIdIs(live, c);
  }

  /** A client with no persisted config is removed exactly once. */
  lemma RemovesStaleClient(persisted: seq<ServerConfig>, live: seq<ServerConfig>, m: ServerConfig)
    requires DistinctIds(persisted) && DistinctIds(live)
    requires m in live
    requires forall c :: c in persisted ==> c.id != m.id
    ensures OpsOn(Reconcile(persisted, live), m.id) == [RemoveClient(m.id)]
  {
    ReconcileOn(persisted, live, m.id);
    FindByIdIs(live, m);
  }

  /** No persisted server is ever removed. */
  lemma NeverRemovesPersisted(persisted: seq<ServerConfig>, live: seq<ServerConfig>, c: ServerConfig)
    requires DistinctIds(persisted) && DistinctIds(live)
    requires c in persisted
    ensures RemoveClient(c.id) !in Reconcile(persisted, live)
  {
    ReconcileOn(persisted, live, c.id);
    FindByIdIs(persisted, c);
  }

  /** Every id receives at most one operation. */
  lemma AtMostOneOpPerId(persisted: seq<ServerConfig>, live: seq<ServerConfig>, id: Id)
    requires DistinctIds(persisted) && DistinctIds(live)
    ensures |OpsOn(Reconcile(persisted, live), id)| <= 1
  {
    ReconcileOn(persisted, live, id);
  }

  /** The ids added, refreshed and removed are pairwise disjoint. */
  lemma OpKindsDisjoint(persisted: seq<ServerConfig>, live: seq<ServerConfig>, a: Op, b: Op)
    requires DistinctIds(persisted) && DistinctIds(live)
    requires a in Reconcile(persisted, live) && b in Reconcile(persisted, live)
    requires a.id == b.id
    ensures a == b
  {
    var ops := OpsOn(Reconcile(persisted, live), a.id);
    ReconcileOn(persisted, live, a.id);
    assert Targets(a.id)(a) && Targets(a.id)(b);
    assert a in ops && b in ops;
  }

  /** Every operation concerns a server that is persisted or held. */
  lemma OpsOnKnownIds(persisted: seq<ServerConfig>, live: seq<ServerConfig>, op: Op)
    requires DistinctIds(persisted) && DistinctIds(live)
    requires op in Reconcile(persisted, live)
    ensures (exists c :: c in persisted && c.id == op.id) || (exists m :: m in live && m.id == op.id)
  {
    ReconcileOn(persisted, live, op.id);
    assert Targets(op.id)(op);
    assert op in OpsOn(Reconcile(persisted, live), op.id);
    var p := FindById(persisted, op.id);
    if p.Some? {
      assert p.value in persisted;
    } else {
      assert FindById(live, op.id).value in live;
    }
  }

  lemma {:induction false} PersistedOpsSameLive(dbs: seq<ServerConfig>, l1: seq<ServerConfig>, l2: seq<ServerConfig>)
    requires forall id :: FindById(l1, id) == FindById(l2, id)
    ensures PersistedOps(dbs, l1) == PersistedOps(dbs, l2)
    decreases |dbs|
  {
    if dbs != [] {
      PersistedOpsSameLive(dbs[1..], l1, l2);
      assert FindById(l1, dbs[0].id) == FindById(l2, dbs[0].id);
    }
  }

  /** Neither input order matters: both lists are sorted by id first, and
      the manager lookup is by id. */
  lemma ReconcileOrderIndependent(p1: seq<ServerConfig>, l1: seq<ServerConfig>, p2: seq<ServerConfig>, l2: seq<ServerConfig>)
    requires DistinctIds(p1) && DistinctIds(l1) && DistinctIds(p2) && DistinctIds(l2)
    requires forall x :: x in p1 <==> x in p2
    requires forall x :: x in l1 <==> x in l2
    ensures Reconcile(p1, l1) == Reconcile(p2, l2)
  {
    SortOrderIndependent(p1, p2);
    SortOrderIndependent(l1, l2);
    forall id ensures FindById(l1, id) == FindById(l2, id) {
      FindByIdSameElements(l1, l2, id);
    }
    PersistedOpsSameLive(SortById(p1), l1, l2);
  }

  /** The facts about the example's two lists that the general lemmas need. */
  lemma ExampleInputs(a: ServerConfig, b: ServerConfig, c: ServerConfig, d: ServerConfig, persisted: seq<ServerConfig>, live: seq<ServerConfig>)
    requires a.id == "A" && b.id == "B" && c.id == "C" && d.id == "D"
    requires persisted == [c, a, b] && live == [d, b, a]
    ensures DistinctIds(persisted) && DistinctIds(live)
    ensures c in persisted && a in persisted && a in live && b in persisted && b in live && d in live
    ensures forall m :: m in live ==> m.id != c.id
    ensures forall x :: x in persisted ==> x.id != d.id
  {
  }

  /** Single-letter ids compare as their letters. */
  lemma IdBeforeLetters(x: char, y: char)
    ensures IdBefore([x], [y]) <==> x < y
  {
    if x == y {
      assert IdBefore([x], [y]) == IdBefore([], []);
    }
  }

  /** Inserting c into a sorted pair whose ids both come before c's. */
  lemma InsertLast(x: ServerConfig, y: ServerConfig, c: ServerConfig)
    requires IdBefore(x.id, c.id) && IdBefore(y.id, c.id)
    ensures Insert(c, [x, y]) == [x, y, c]
  {
    assert Insert(c, [y]) == [y] + Insert(c, [y][1..]) == [y, c];
    assert Insert(c, [x, y]) == [x] + Insert(c, [x, y][1..]) == [x, y, c];
  }

  /** Sorting two configs whose ids are in reverse order, or in order. */
  lemma SortPair(x: ServerConfig, y: ServerConfig)
    requires IdBefore(x.id, y.id) && !IdBefore(y.id, x.id)
    ensures SortById([x, y]) == [x, y] && SortById([y, x]) == [x, y]
  {
    assert [x, y][1..] == [y] && [y, x][1..] == [x];
    assert SortById([y]) == [y] && SortById([x]) == [x];
    assert [x][1..] == [];
  }

  /** The facts about the ids A < B < C, D that the example uses. */
  predicate ExampleIds(a: ServerConfig, b: ServerConfig, c: ServerConfig, d: ServerConfig)
  {
    IdBefore(a.id, b.id) && !IdBefore(b.id, a.id) &&
    IdBefore(a.id, c.id) && IdBefore(b.id, c.id) && IdBefore(a.id, d.id) && IdBefore(b.id, d.id) &&
    a.id != b.id && a.id != c.id && a.id != d.id && b.id != c.id && b.id != d.id && c.id != d.id
  }

  lemma LetterIds(a: ServerConfig, b: ServerConfig, c: ServerConfig, d: ServerConfig)
    requires a.id == "A" && b.id == "B" && c.id == "C" && d.id == "D"
    ensures ExampleIds(a, b, c, d)
  {
    IdBeforeLetters('A', 'B');
    IdBeforeLetters('B', 'A');
    IdBeforeLetters('A', 'C');
    IdBeforeLetters('B', 'C');
    IdBeforeLetters('A', 'D');
    IdBeforeLetters('B', 'D');
  }

  /** The example's two lists sorted by id. */
  lemma ExampleSorted(a: ServerConfig, b: ServerConfig, c: ServerConfig, d: ServerConfig)
    requires ExampleIds(a, b, c, d)
    ensures SortById([c, a, b]) == [a, b, c]
    ensures SortById([d, b, a]) == [a, b, d]
  {
    SortPair(a, b);
    InsertLast(a, b, c);
    InsertLast(a, b, d);
    assert [c, a, b][1..] == [a, b] && [d, b, a][1..] == [b, a];
  }

  /** The per-config decisions of the example: A and B are unchanged, C is
      not held. */
  lemma ExamplePersistedOps(a: ServerConfig, b: ServerConfig, c: ServerConfig, d: ServerConfig)
    requires ExampleIds(a, b, c, d)
    ensures PersistedOps([a, b, c], [d, b, a]) == [AddClient(c.id, c.name, c.config)]
  {
    var live := [d, b, a];
    assert FindById(live, a.id) == Some(a) && FindById(live, b.id) == Some(b) && FindById(live, c.id) == None;
    assert PersistedOps([c], live) == [AddClient(c.id, c.name, c.config)] + PersistedOps([], live);
    assert PersistedOps([b, c], live) == [] + PersistedOps([c], live);
    assert PersistedOps([a, b, c], live) == [] + PersistedOps([b, c], live);
  }

  /** The removals of the example: only D is held and not persisted. */
  lemma ExampleRemoveOps(a: ServerConfig, b: ServerConfig, c: ServerConfig, d: ServerConfig)
    requires ExampleIds(a, b, c, d)
    ensures RemoveOps([a, b, d], [a, b, c]) == [RemoveClient(d.id)]
  {
    var dbs := [a, b, c];
    assert FindById(dbs, a.id).Some? && FindById(dbs, b.id).Some? && FindById(dbs, d.id) == None;
    assert RemoveOps([d], dbs) == [RemoveClient(d.id)] + RemoveOps([], dbs);
    assert RemoveOps([b, d], dbs) == [] + RemoveOps([d], dbs);
    assert RemoveOps([a, b, d], dbs) == [] + RemoveOps([b, d], dbs);
  }

  /** Two sorted lists that differ in their last config. */
  lemma ReconcileWhenDiffer(persisted: seq<ServerConfig>, live: seq<ServerConfig>, dbs: seq<ServerConfig>, mgr: seq<ServerConfig>)
    requires SortById(persisted) == dbs && SortById(live) == mgr
    requires |dbs| == |mgr| > 0 && dbs[|dbs| - 1] != mgr[|mgr| - 1]
    ensures Reconcile(persisted, live) == PersistedOps(dbs, live) + RemoveOps(mgr, dbs)
  {
    assert ShouldRefresh(dbs, mgr);
  }

  /** Persisted {A, B, C} against held {A, B, D}, with A and B unchanged:
      the operations are exactly an add of C followed by a removal of D. */
  lemma {:induction false} ReconcileExample(a: ServerConfig, b: ServerConfig, c: ServerConfig, d: ServerConfig, persisted: seq<ServerConfig>, live: seq<ServerConfig>)
    requires a.id == "A" && b.id == "B" && c.id == "C" && d.id == "D"
    requires persisted == [c, a, b] && live == [d, b, a]
    ensures Reconcile(persisted, live) == [AddClient(c.id, c.name, c.config)] + [RemoveClient(d.id)]
  {
    LetterIds(a, b, c, d);
    ExampleSorted(a, b, c, d);
    ExamplePersistedOps(a, b, c, d);
    ExampleRemoveOps(a, b, c, d);
    ReconcileWhenDiffer(persisted, live, [a, b, c], [a, b, d]);
  }
}
