/** Batched eager loading: each loader runs one query, fills maps in loops and assigns the
    edges on the account nodes. */
module EagerLoad {
  import opened PyText
  import opened EagerJoin

  // ----- Accounts

  /** The key columns of a stored account. */
  datatype Row = Row(id: int, proxyId: Option<int>, parentId: Option<int>)

  class Account {
    const id: int
    const proxyId: Option<int>
    const parentId: Option<int>
    ghost const row: Row          // the stored row
    var groups: seq<Group>
    var proxy: Option<Proxy>
    var parent: Option<Account>
    var children: seq<Account>
    var usageLogs: seq<UsageLog>
    var accountGroups: seq<AccountGroup>

    constructor (scanned: Row, ghost stored: Row)
      ensures id == scanned.id && proxyId == scanned.proxyId && parentId == scanned.parentId && row == stored
      ensures groups == [] && proxy == None && parent == None && children == [] && usageLogs == [] && accountGroups == []
    {
      id, proxyId, parentId, row := scanned.id, scanned.proxyId, scanned.parentId, stored;
      groups, proxy, parent, children, usageLogs, accountGroups := [], None, None, [], [], [];
    }
  }

  ghost predicate Distinct(nodes: seq<Account>) { forall i, j | 0 <= i < j < |nodes| :: nodes[i] != nodes[j] }

  ghost function Ids(nodes: seq<Account>): (r: seq<int>)
    ensures |r| == |nodes|
  {
    seq(|nodes|, k requires 0 <= k < |nodes| => nodes[k].id)
  }

  // ----- Groups

  /** The map filled in a loop over the nodes: a later node with the same id replaces an earlier one. */
  ghost function ById(nodes: seq<Account>): map<int, Account> {
    if nodes == [] then map[] else ById(nodes[..|nodes| - 1])[nodes[|nodes| - 1].id := nodes[|nodes| - 1]]
  }

  lemma {:induction false} ByIdExactly(nodes: seq<Account>, id: int)
    ensures id in ById(nodes) <==> LastOf(Ids(nodes), id) < |nodes|
    ensures id in ById(nodes) ==> ById(nodes)[id] == nodes[LastOf(Ids(nodes), id)]
    ensures id in ById(nodes) <==> id in Ids(nodes)
    decreases |nodes|
  {
    if nodes != [] {
      var n := |nodes| - 1;
      ByIdExactly(nodes[..n], id);
      assert Ids(nodes)[..n] == Ids(nodes[..n]);
      assert Ids(nodes)[n] == nodes[n].id;
      assert id in Ids(nodes[..n]) ==> id in Ids(nodes);
    }
  }

  /** The accounts every group was read for. */
  ghost function Holders(byId: map<int, Account>, rows: seq<JoinRow>): map<int, set<Account>>
    requires forall k | 0 <= k < |rows| :: rows[k].account in byId
  {
    if rows == [] then map[]
    else
      var m, r := Holders(byId, rows[..|rows| - 1]), rows[|rows| - 1];
      m[r.group.id := (if r.group.id in m then m[r.group.id] else {}) + {byId[r.account]}]
  }

  lemma {:induction false} HoldersExactly(byId: map<int, Account>, rows: seq<JoinRow>, group: int, a: Account)
    requires forall k | 0 <= k < |rows| :: rows[k].account in byId
    ensures var m := Holders(byId, rows);
            && (group in m <==> Known(rows, group))
            && (group in m && a in m[group]
                <==> exists k | 0 <= k < |rows| :: rows[k].group.id == group && byId[rows[k].account] == a)
    decreases |rows|
  {
    if rows != [] {
      var n := |rows| - 1;
      HoldersExactly(byId, rows[..n], group, a);
      assert forall k | 0 <= k < n :: rows[..n][k] == rows[k];
    }
  }

  /** The groups of `groups` that are held by the account. */
  ghost function Held(groups: seq<Group>, holders: map<int, set<Account>>, a: Account): seq<Group> {
    if groups == [] then []
    else
      var g := groups[|groups| - 1];
      Held(groups[..|groups| - 1], holders, a) + if g.id in holders && a in holders[g.id] then [g] else []
  }

  /** Being held is being joined, for the node that stands for its id. */
  lemma {:induction false} HeldIsJoined(nodes: seq<Account>, rows: seq<JoinRow>, groups: seq<Group>, j: nat)
    requires Distinct(nodes) && j < |nodes| && forall k | 0 <= k < |rows| :: rows[k].account in ById(nodes)
    ensures Held(groups, Holders(ById(nodes), rows), nodes[j])
         == if LastOf(Ids(nodes), nodes[j].id) == j then Picked(groups, rows, nodes[j].id) else []
    decreases |groups|
  {
    hide Holders, ById, Joined;
    if groups != [] {
      var g := groups[|groups| - 1];
      HeldIsJoined(nodes, rows, groups[..|groups| - 1], j);
      HeldOne(nodes, rows, g.id, j);
    }
  }

  lemma {:induction false} HeldOne(nodes: seq<Account>, rows: seq<JoinRow>, group: int, j: nat)
    requires Distinct(nodes) && j < |nodes| && forall k | 0 <= k < |rows| :: rows[k].account in ById(nodes)
    ensures var m := Holders(ById(nodes), rows);
            (group in m && nodes[j] in m[group])
              <==> LastOf(Ids(nodes), nodes[j].id) == j && Joined(rows, nodes[j].id, group)
  {
    hide Holders, ById;
    HoldersExactly(ById(nodes), rows, group, nodes[j]);
    ByIdExactly(nodes, nodes[j].id);
    forall k | 0 <= k < |rows|
      ensures ById(nodes)[rows[k].account] == nodes[j]
         <==> rows[k].account == nodes[j].id && LastOf(Ids(nodes), nodes[j].id) == j
    {
      ByIdExactly(nodes, rows[k].account);
      assert ById(nodes)[rows[k].account].id == rows[k].account;
    }
  }

  method LoadGroups(nodes: seq<Account>, rows: seq<JoinRow>) returns (ok: bool)
    requires Distinct(nodes)
    requires forall k | 0 <= k < |rows| :: rows[k].account in Ids(nodes)
    modifies nodes`groups
    ensures ok
    ensures forall k | 0 <= k < |nodes| ::
              nodes[k].groups == if LastOf(Ids(nodes), nodes[k].id) == k then GroupsOf(rows, nodes[k].id) else []
  {
    hide ById, Holders, Held, Neighbors, Picked, LastOf, Known;
    var byId := InitGroups(nodes);
    forall k | 0 <= k < |rows| ensures rows[k].account in byId { ByIdExactly(nodes, rows[k].account); }
    var holders, neighbors := ReadGroups(byId, rows);
    HeldEmpty(holders);
    for k := 0 to |neighbors|
      modifies nodes`groups
      invariant forall j | 0 <= j < |nodes| :: nodes[j].groups == Held(neighbors[..k], holders, nodes[j])
    {
      var n := neighbors[k];
      NeighborHeld(byId, rows, k);
      if n.id !in holders {
        return false;
      }
      assert neighbors[..k + 1][..k] == neighbors[..k];
      HoldersAreNodes(nodes, rows, n.id);
      AssignAll(nodes, holders[n.id], n);
      forall j | 0 <= j < |nodes| ensures nodes[j].groups == Held(neighbors[..k + 1], holders, nodes[j]) {
        HeldSnoc(neighbors, k, holders, nodes[j]);
      }
    }
    assert neighbors[..|neighbors|] == neighbors;
    forall j | 0 <= j < |nodes| { HeldIsJoined(nodes, rows, neighbors, j); }
    ok := true;
  }

  lemma HeldEmpty(holders: map<int, set<Account>>)
    ensures forall a :: Held([], holders, a) == []
  {
  }

  lemma HeldSnoc(groups: seq<Group>, k: nat, holders: map<int, set<Account>>, a: Account)
    requires k < |groups|
    ensures Held(groups[..k + 1], holders, a)
         == Held(groups[..k], holders, a)
            + if groups[k].id in holders && a in holders[groups[k].id] then [groups[k]] else []
  {
    assert groups[..k + 1][..k] == groups[..k];
  }

  lemma NeighborHeld(byId: map<int, Account>, rows: seq<JoinRow>, k: nat)
    requires (forall k | 0 <= k < |rows| :: rows[k].account in byId) && k < |Neighbors(rows)|
    ensures Neighbors(rows)[k].id in Holders(byId, rows)
  {
    hide Neighbors, Known, Holders;
    var g := Neighbors(rows)[k].id;
    NeighborsListed(rows, g);
    KnownHeld(byId, rows, g);
  }

  lemma {:induction false} KnownHeld(byId: map<int, Account>, rows: seq<JoinRow>, group: int)
    requires forall k | 0 <= k < |rows| :: rows[k].account in byId
    ensures group in Holders(byId, rows) <==> Known(rows, group)
    decreases |rows|
  {
    if rows != [] {
      var n := |rows| - 1;
      KnownHeld(byId, rows[..n], group);
      assert forall k | 0 <= k < n :: rows[..n][k] == rows[k];
    }
  }

  lemma HoldersAreNodes(nodes: seq<Account>, rows: seq<JoinRow>, group: int)
    requires forall k | 0 <= k < |rows| :: rows[k].account in ById(nodes)
    requires group in Holders(ById(nodes), rows)
    ensures forall a | a in Holders(ById(nodes), rows)[group] :: a in nodes
  {
    hide Holders, ById;
    forall a | a in Holders(ById(nodes), rows)[group] ensures a in nodes {
      HoldersExactly(ById(nodes), rows, group, a);
      var k :| 0 <= k < |rows| && rows[k].group.id == group && ById(nodes)[rows[k].account] == a;
      ByIdExactly(nodes, rows[k].account);
    }
  }

  method InitGroups(nodes: seq<Account>) returns (byId: map<int, Account>)
    requires Distinct(nodes)
    modifies nodes`groups
    ensures byId == ById(nodes) && forall k | 0 <= k < |nodes| :: nodes[k].groups == []
  {
    byId := map[];
    for i := 0 to |nodes|
      modifies nodes`groups
      invariant byId == ById(nodes[..i]) && forall k | 0 <= k < i :: nodes[k].groups == []
    {
      assert nodes[..i + 1][..i] == nodes[..i];
      byId := byId[nodes[i].id := nodes[i]];
      nodes[i].groups := [];
    }
    assert nodes[..|nodes|] == nodes;
  }

  /** A group is appended on its first row; further rows only add holders. */
  method ReadGroups(byId: map<int, Account>, rows: seq<JoinRow>)
    returns (holders: map<int, set<Account>>, neighbors: seq<Group>)
    requires forall k | 0 <= k < |rows| :: rows[k].account in byId
    ensures holders == Holders(byId, rows) && neighbors == Neighbors(rows)
  {
    hide Known;
    holders, neighbors := map[], [];
    for k := 0 to |rows|
      invariant holders == Holders(byId, rows[..k]) && neighbors == Neighbors(rows[..k])
    {
      var r := rows[k];
      assert rows[..k + 1][..k] == rows[..k];
      KnownHeld(byId, rows[..k], r.group.id);
      if r.group.id !in holders {
        assert {} + {byId[r.account]} == {byId[r.account]};
        holders := holders[r.group.id := {byId[r.account]}];
        neighbors := neighbors + [r.group];
      } else {
        holders := holders[r.group.id := holders[r.group.id] + {byId[r.account]}];
      }
    }
    assert rows[..|rows|] == rows;
  }

  /** Appends the group to every holder, in any order. */
  method AssignAll(nodes: seq<Account>, holders: set<Account>, g: Group)
    requires forall a | a in holders :: a in nodes
    modifies nodes`groups
    ensures forall a | a in nodes :: a.groups == old(a.groups) + if a in holders then [g] else []
  {
    var rest := holders;
    while rest != {}
      modifies nodes`groups
      invariant rest <= holders
      invariant forall a | a in nodes :: a.groups == old(a.groups) + if a in holders && a !in rest then [g] else []
      decreases |rest|
    {
      var a :| a in rest;
      a.groups := a.groups + [g];
      rest := rest - {a};
    }
  }

  // ----- Proxy and parent: the key is on the account

  ghost function Holding(nodes: seq<Account>, keys: seq<Option<int>>, id: int): seq<Account>
    requires |nodes| == |keys|
  {
    if nodes == [] then []
    else
      var n := |nodes| - 1;
      Holding(nodes[..n], keys[..n], id) + if keys[n] == Some(id) then [nodes[n]] else []
  }

  lemma {:induction false} HoldingExactly(nodes: seq<Account>, keys: seq<Option<int>>, id: int, k: nat)
    requires Distinct(nodes) && |nodes| == |keys| && k < |nodes|
    ensures nodes[k] in Holding(nodes, keys, id) <==> keys[k] == Some(id)
    ensures forall a | a in Holding(nodes, keys, id) :: a in nodes
    decreases |nodes|
  {
    var n := |nodes| - 1;
    if n > 0 { HoldingExactly(nodes[..n], keys[..n], id, if k < n then k else n - 1); }
    assert forall a | a in Holding(nodes[..n], keys[..n], id) :: a in nodes[..n] ==> a in nodes;
  }

  /** The nodes of every key, in order. */
  ghost function KeyMap(nodes: seq<Account>, keys: seq<Option<int>>): map<int, seq<Account>>
    requires |nodes| == |keys|
  {
    if nodes == [] then map[]
    else
      var n := |nodes| - 1;
      var m := KeyMap(nodes[..n], keys[..n]);
      match keys[n]
      case None => m
      case Some(fk) => m[fk := (if fk in m then m[fk] else []) + [nodes[n]]]
  }

  lemma {:induction false} KeyMapExactly(nodes: seq<Account>, keys: seq<Option<int>>, id: int)
    requires |nodes| == |keys|
    ensures id in KeyMap(nodes, keys) <==> id in DistinctKeys(keys)
    ensures (if id in KeyMap(nodes, keys) then KeyMap(nodes, keys)[id] else []) == Holding(nodes, keys, id)
    decreases |nodes|
  {
    if nodes != [] {
      var n := |nodes| - 1;
      KeyMapExactly(nodes[..n], keys[..n], id);
    }
  }

  lemma CollectNone()
    ensures KeyMap([], []) == map[] && DistinctKeys([]) == []
  {
  }

  lemma CollectSnoc(nodes: seq<Account>, keys: seq<Option<int>>, i: nat)
    requires |nodes| == |keys| && i < |nodes|
    ensures var m, ids := KeyMap(nodes[..i], keys[..i]), DistinctKeys(keys[..i]);
            match keys[i]
            case None => KeyMap(nodes[..i + 1], keys[..i + 1]) == m && DistinctKeys(keys[..i + 1]) == ids
            case Some(fk) =>
              && KeyMap(nodes[..i + 1], keys[..i + 1]) == m[fk := (if fk in m then m[fk] else []) + [nodes[i]]]
              && DistinctKeys(keys[..i + 1]) == if fk in ids then ids else ids + [fk]
  {
    assert nodes[..i + 1][..i] == nodes[..i] && keys[..i + 1][..i] == keys[..i];
  }

  method CollectKeys(nodes: seq<Account>, keys: seq<Option<int>>)
    returns (ids: seq<int>, nodeIds: map<int, seq<Account>>)
    requires |nodes| == |keys|
    ensures ids == DistinctKeys(keys) && nodeIds == KeyMap(nodes, keys)
  {
    CollectNone();
    hide KeyMap, DistinctKeys, Holding;
    ids, nodeIds := [], map[];
    for i := 0 to |nodes|
      invariant ids == DistinctKeys(keys[..i]) && nodeIds == KeyMap(nodes[..i], keys[..i])
    {
      CollectSnoc(nodes, keys, i);
      if keys[i].None? {
        continue;
      }
      var fk := keys[i].value;
      KeyMapExactly(nodes[..i], keys[..i], fk);
      if fk !in nodeIds {
        ids := ids + [fk];
        nodeIds := nodeIds[fk := []];
      }
      nodeIds := nodeIds[fk := nodeIds[fk] + [nodes[i]]];
    }
    assert nodes[..|nodes|] == nodes && keys[..|nodes|] == keys;
  }

  function ProxyKeys(nodes: seq<Account>): (r: seq<Option<int>>)
    ensures |r| == |nodes|
  {
    seq(|nodes|, k requires 0 <= k < |nodes| => nodes[k].proxyId)
  }

  function ParentKeys(nodes: seq<Account>): (r: seq<Option<int>>)
    ensures |r| == |nodes|
  {
    seq(|nodes|, k requires 0 <= k < |nodes| => nodes[k].parentId)
  }

  function ProxyRef(p: Proxy): int { p.id }

  function AccountRef(a: Account): int { a.id }

  /** No query is sent without ids; otherwise the rows must have the ids that were asked for. */
  predicate Answers<T>(keys: seq<Option<int>>, rows: seq<T>, key: T -> int) {
    DistinctKeys(keys) == [] || forall k | 0 <= k < |rows| :: key(rows[k]) in DistinctKeys(keys)
  }

  /** The edge of a node with foreign key `fk`. */
  function Found<T>(fk: Option<int>, rows: seq<T>, key: T -> int, before: Option<T>): Option<T> {
    if fk.Some? && Lookup(rows, key, fk.value).Some? then Lookup(rows, key, fk.value) else before
  }

  lemma {:induction false} NoKeys(keys: seq<Option<int>>)
    requires DistinctKeys(keys) == []
    ensures forall k | 0 <= k < |keys| :: keys[k] == None
  {
    if keys != [] { NoKeys(keys[..|keys| - 1]); }
  }

  lemma FoundSnoc<T>(fk: Option<int>, rows: seq<T>, m: nat, key: T -> int, before: Option<T>)
    requires m < |rows|
    ensures Found(fk, rows[..m + 1], key, before)
         == if fk == Some(key(rows[m])) then Some(rows[m]) else Found(fk, rows[..m], key, before)
  {
    assert rows[..m + 1][..m] == rows[..m];
  }

  lemma FoundNone<T>(fk: Option<int>, rows: seq<T>, key: T -> int, before: Option<T>)
    requires fk == None || rows == []
    ensures Found(fk, rows, key, before) == before
  {
  }

  lemma HoldingNodes(nodes: seq<Account>, keys: seq<Option<int>>, id: int)
    requires Distinct(nodes) && |nodes| == |keys|
    ensures forall a | a in Holding(nodes, keys, id) :: a in nodes
  {
    if nodes != [] { HoldingExactly(nodes, keys, id, 0); }
  }

  /** Every account whose key is found gets that proxy; all others stay untouched. */
  method LoadProxy(nodes: seq<Account>, neighbors: seq<Proxy>) returns (ok: bool)
    requires Distinct(nodes)
    modifies nodes`proxy
    ensures ok <==> Answers(ProxyKeys(nodes), neighbors, ProxyRef)
    ensures ok ==> forall k | 0 <= k < |nodes| ::
              nodes[k].proxy == Found(ProxyKeys(nodes)[k], neighbors, ProxyRef, old(nodes[k].proxy))
  {
    hide DistinctKeys, Holding, KeyMap, Found, Lookup, Ids, LastOf, Share, Mine, ById, Distinct;
    var keys := ProxyKeys(nodes);
    DistinctKeysExactly(keys);
    var ids, nodeIds := CollectKeys(nodes, keys);
    if |ids| == 0 {
      NoKeys(keys);
      forall k | 0 <= k < |nodes| { FoundNone(keys[k], neighbors, ProxyRef, nodes[k].proxy); }
      return true;
    }
    forall k | 0 <= k < |nodes| { FoundNone(keys[k], neighbors[..0], ProxyRef, nodes[k].proxy); }
    for m := 0 to |neighbors|
      modifies nodes`proxy
      invariant forall j | 0 <= j < m :: neighbors[j].id in ids
      invariant forall k | 0 <= k < |nodes| ::
                  nodes[k].proxy == Found(keys[k], neighbors[..m], ProxyRef, old(nodes[k].proxy))
    {
      var n := neighbors[m];
      KeyMapExactly(nodes, keys, n.id);
      if n.id !in nodeIds {
        assert ProxyRef(neighbors[m]) !in ids;
        return false;
      }
      HoldingNodes(nodes, keys, n.id);
      AssignProxy(nodes, nodeIds[n.id], n);
      forall k | 0 <= k < |nodes|
        ensures nodes[k].proxy == Found(keys[k], neighbors[..m + 1], ProxyRef, old(nodes[k].proxy))
      {
        HoldingExactly(nodes, keys, n.id, k);
        FoundSnoc(keys[k], neighbors, m, ProxyRef, old(nodes[k].proxy));
      }
    }
    assert neighbors[..|neighbors|] == neighbors;
    ok := true;
  }

  method AssignProxy(nodes: seq<Account>, holders: seq<Account>, n: Proxy)
    requires forall a | a in holders :: a in nodes
    modifies nodes`proxy
    ensures forall a | a in nodes :: a.proxy == if a in holders then Some(n) else old(a.proxy)
  {
    for i := 0 to |holders|
      modifies nodes`proxy
      invariant forall a | a in nodes :: a.proxy == if a in holders[..i] then Some(n) else old(a.proxy)
    {
      assert holders[..i + 1] == holders[..i] + [holders[i]];
      assert holders[i] in holders && holders[i] in nodes;
      holders[i].proxy := Some(n);
    }
    assert holders[..|holders|] == holders;
  }

  /** Every account whose key is found gets that parent; all others stay untouched. */
  method LoadParent(nodes: seq<Account>, neighbors: seq<Account>) returns (ok: bool)
    requires Distinct(nodes)
    modifies nodes`parent
    ensures ok <==> Answers(ParentKeys(nodes), neighbors, AccountRef)
    ensures ok ==> forall k | 0 <= k < |nodes| ::
              nodes[k].parent == Found(ParentKeys(nodes)[k], neighbors, AccountRef, old(nodes[k].parent))
  {
    hide DistinctKeys, Holding, KeyMap, Found, Lookup, Ids, LastOf, Share, Mine, ById, Distinct;
    var keys := ParentKeys(nodes);
    DistinctKeysExactly(keys);
    var ids, nodeIds := CollectKeys(nodes, keys);
    if |ids| == 0 {
      NoKeys(keys);
      forall k | 0 <= k < |nodes| { FoundNone(keys[k], neighbors, AccountRef, nodes[k].parent); }
      return true;
    }
    forall k | 0 <= k < |nodes| { FoundNone(keys[k], neighbors[..0], AccountRef, nodes[k].parent); }
    for m := 0 to |neighbors|
      modifies nodes`parent
      invariant forall j | 0 <= j < m :: neighbors[j].id in ids
      invariant forall k | 0 <= k < |nodes| ::
                  nodes[k].parent == Found(keys[k], neighbors[..m], AccountRef, old(nodes[k].parent))
    {
      var n := neighbors[m];
      KeyMapExactly(nodes, keys, n.id);
      if n.id !in nodeIds {
        assert AccountRef(neighbors[m]) !in ids;
        return false;
      }
      HoldingNodes(nodes, keys, n.id);
      AssignParent(nodes, nodeIds[n.id], n);
      forall k | 0 <= k < |nodes|
        ensures nodes[k].parent == Found(keys[k], neighbors[..m + 1], AccountRef, old(nodes[k].parent))
      {
        HoldingExactly(nodes, keys, n.id, k);
        FoundSnoc(keys[k], neighbors, m, AccountRef, old(nodes[k].parent));
      }
    }
    assert neighbors[..|neighbors|] == neighbors;
    ok := true;
  }

  method AssignParent(nodes: seq<Account>, holders: seq<Account>, n: Account)
    requires forall a | a in holders :: a in nodes
    modifies nodes`parent
    ensures forall a | a in nodes :: a.parent == if a in holders then Some(n) else old(a.parent)
  {
    for i := 0 to |holders|
      modifies nodes`parent
      invariant forall a | a in nodes :: a.parent == if a in holders[..i] then Some(n) else old(a.parent)
    {
      assert holders[..i + 1] == holders[..i] + [holders[i]];
      assert holders[i] in holders && holders[i] in nodes;
      holders[i].parent := Some(n);
    }
    assert holders[..|holders|] == holders;
  }

  // ----- Children, usage logs and memberships: the key is on the neighbour

  function ChildKey(a: Account): Option<int> { a.parentId }

  function LogKey(l: UsageLog): Option<int> { Some(l.accountId) }

  function MemberKey(g: AccountGroup): Option<int> { Some(g.accountId) }

  lemma ShareSnoc<T>(ids: seq<int>, rows: seq<T>, m: nat, key: T -> Option<int>, k: nat)
    requires k < |ids| && m < |rows|
    ensures Share(ids, rows[..m + 1], key, k) == Share(ids, rows[..m], key, k)
         + if LastOf(ids, ids[k]) == k && key(rows[m]) == Some(ids[k]) then [rows[m]] else []
  {
    assert rows[..m + 1][..m] == rows[..m];
  }

  lemma ShareEmpty<T>(ids: seq<int>, key: T -> Option<int>, k: nat)
    requires k < |ids|
    ensures Share(ids, [], key, k) == []
  {
  }

  /** The node a neighbour goes to. */
  lemma OwnerOf(nodes: seq<Account>, fk: int, k: nat)
    requires Distinct(nodes) && k < |nodes| && fk in ById(nodes)
    ensures ById(nodes)[fk] in nodes
    ensures nodes[k] == ById(nodes)[fk] <==> LastOf(Ids(nodes), nodes[k].id) == k && nodes[k].id == fk
  {
    hide ById;
    ByIdExactly(nodes, fk);
  }

  method LoadChildren(nodes: seq<Account>, neighbors: seq<Account>) returns (ok: bool)
    requires Distinct(nodes)
    modifies nodes`children
    ensures ok <==> Honours(Ids(nodes), neighbors, ChildKey)
    ensures ok ==> forall k | 0 <= k < |nodes| ::
              nodes[k].children == Share(Ids(nodes), neighbors, ChildKey, k)
  {
    hide ById, Share, LastOf;
    var nodeIds := InitChildren(nodes);
    forall k | 0 <= k < |nodes| { ShareEmpty(Ids(nodes), ChildKey, k); }
    for m := 0 to |neighbors|
      modifies nodes`children
      invariant forall j | 0 <= j < m :: ChildKey(neighbors[j]).Some? && ChildKey(neighbors[j]).value in Ids(nodes)
      invariant forall k | 0 <= k < |nodes| :: nodes[k].children == Share(Ids(nodes), neighbors[..m], ChildKey, k)
    {
      var n := neighbors[m];
      var key := n.parentId;
      if key.None? {
        assert ChildKey(neighbors[m]).None?;
        return false;
      }
      var fk := key.value;
      ByIdExactly(nodes, fk);
      if fk !in nodeIds {
        assert ChildKey(neighbors[m]).value !in Ids(nodes);
        return false;
      }
      var owner := nodeIds[fk];
      OwnerOf(nodes, fk, 0);
      owner.children := owner.children + [n];
      forall k | 0 <= k < |nodes|
        ensures nodes[k].children == Share(Ids(nodes), neighbors[..m + 1], ChildKey, k)
      {
        OwnerOf(nodes, fk, k);
        ShareSnoc(Ids(nodes), neighbors, m, ChildKey, k);
      }
    }
    assert neighbors[..|neighbors|] == neighbors;
    ok := true;
  }

  method InitChildren(nodes: seq<Account>) returns (nodeIds: map<int, Account>)
    requires Distinct(nodes)
    modifies nodes`children
    ensures nodeIds == ById(nodes) && forall k | 0 <= k < |nodes| :: nodes[k].children == []
  {
    nodeIds := map[];
    for i := 0 to |nodes|
      modifies nodes`children
      invariant nodeIds == ById(nodes[..i]) && forall k | 0 <= k < i :: nodes[k].children == []
    {
      assert nodes[..i + 1][..i] == nodes[..i];
      nodeIds := nodeIds[nodes[i].id := nodes[i]];
      nodes[i].children := [];
    }
    assert nodes[..|nodes|] == nodes;
  }

  method LoadUsageLogs(nodes: seq<Account>, neighbors: seq<UsageLog>) returns (ok: bool)
    requires Distinct(nodes)
    modifies nodes`usageLogs
    ensures ok <==> Honours(Ids(nodes), neighbors, LogKey)
    ensures ok ==> forall k | 0 <= k < |nodes| ::
              nodes[k].usageLogs == Share(Ids(nodes), neighbors, LogKey, k)
  {
    hide ById, Share, LastOf;
    var nodeIds := InitUsageLogs(nodes);
    forall k | 0 <= k < |nodes| { ShareEmpty(Ids(nodes), LogKey, k); }
    for m := 0 to |neighbors|
      modifies nodes`usageLogs
      invariant forall j | 0 <= j < m :: LogKey(neighbors[j]).Some? && LogKey(neighbors[j]).value in Ids(nodes)
      invariant forall k | 0 <= k < |nodes| :: nodes[k].usageLogs == Share(Ids(nodes), neighbors[..m], LogKey, k)
    {
      var n := neighbors[m];
      var fk := n.accountId;
      ByIdExactly(nodes, fk);
      if fk !in nodeIds {
        assert LogKey(neighbors[m]).value !in Ids(nodes);
        return false;
      }
      var owner := nodeIds[fk];
      OwnerOf(nodes, fk, 0);
      owner.usageLogs := owner.usageLogs + [n];
      forall k | 0 <= k < |nodes|
        ensures nodes[k].usageLogs == Share(Ids(nodes), neighbors[..m + 1], LogKey, k)
      {
        OwnerOf(nodes, fk, k);
        ShareSnoc(Ids(nodes), neighbors, m, LogKey, k);
      }
    }
    assert neighbors[..|neighbors|] == neighbors;
    ok := true;
  }

  method InitUsageLogs(nodes: seq<Account>) returns (nodeIds: map<int, Account>)
    requires Distinct(nodes)
    modifies nodes`usageLogs
    ensures nodeIds == ById(nodes) && forall k | 0 <= k < |nodes| :: nodes[k].usageLogs == []
  {
    nodeIds := map[];
    for i := 0 to |nodes|
      modifies nodes`usageLogs
      invariant nodeIds == ById(nodes[..i]) && forall k | 0 <= k < i :: nodes[k].usageLogs == []
    {
      assert nodes[..i + 1][..i] == nodes[..i];
      nodeIds := nodeIds[nodes[i].id := nodes[i]];
      nodes[i].usageLogs := [];
    }
    assert nodes[..|nodes|] == nodes;
  }

  method LoadAccountGroups(nodes: seq<Account>, neighbors: seq<AccountGroup>) returns (ok: bool)
    requires Distinct(nodes)
    modifies nodes`accountGroups
    ensures ok <==> Honours(Ids(nodes), neighbors, MemberKey)
    ensures ok ==> forall k | 0 <= k < |nodes| ::
              nodes[k].accountGroups == Share(Ids(nodes), neighbors, MemberKey, k)
  {
    hide ById, Share, LastOf;
    var nodeIds := InitAccountGroups(nodes);
    forall k | 0 <= k < |nodes| { ShareEmpty(Ids(nodes), MemberKey, k); }
    for m := 0 to |neighbors|
      modifies nodes`accountGroups
      invariant forall j | 0 <= j < m :: MemberKey(neighbors[j]).Some? && MemberKey(neighbors[j]).value in Ids(nodes)
      invariant forall k | 0 <= k < |nodes| :: nodes[k].accountGroups == Share(Ids(nodes), neighbors[..m], MemberKey, k)
    {
      var n := neighbors[m];
      var fk := n.accountId;
      ByIdExactly(nodes, fk);
      if fk !in nodeIds {
        assert MemberKey(neighbors[m]).value !in Ids(nodes);
        return false;
      }
      var owner := nodeIds[fk];
      OwnerOf(nodes, fk, 0);
      owner.accountGroups := owner.accountGroups + [n];
      forall k | 0 <= k < |nodes|
        ensures nodes[k].accountGroups == Share(Ids(nodes), neighbors[..m + 1], MemberKey, k)
      {
        OwnerOf(nodes, fk, k);
        ShareSnoc(Ids(nodes), neighbors, m, MemberKey, k);
      }
    }
    assert neighbors[..|neighbors|] == neighbors;
    ok := true;
  }

  method InitAccountGroups(nodes: seq<Account>) returns (nodeIds: map<int, Account>)
    requires Distinct(nodes)
    modifies nodes`accountGroups
    ensures nodeIds == ById(nodes) && forall k | 0 <= k < |nodes| :: nodes[k].accountGroups == []
  {
    nodeIds := map[];
    for i := 0 to |nodes|
      modifies nodes`accountGroups
      invariant nodeIds == ById(nodes[..i]) && forall k | 0 <= k < i :: nodes[k].accountGroups == []
    {
      assert nodes[..i + 1][..i] == nodes[..i];
      nodeIds := nodeIds[nodes[i].id := nodes[i]];
      nodes[i].accountGroups := [];
    }
    assert nodes[..|nodes|] == nodes;
  }
}
