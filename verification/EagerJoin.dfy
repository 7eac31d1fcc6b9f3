/** What eager loading should attach: the naive joins between account nodes and the rows of
    their neighbours. */
module EagerJoin {
  import opened PyText

  datatype Group = Group(id: int, name: string)

  datatype Proxy = Proxy(id: int, name: string)

  datatype UsageLog = UsageLog(id: int, accountId: int)

  datatype AccountGroup = AccountGroup(accountId: int, groupId: int)

  /** One row of the group query: the account column of the join table, then the group. */
  datatype JoinRow = JoinRow(account: int, group: Group)

  // ----- One node, one neighbour: the foreign key is on the node

  /** The non-null keys, each once, in order of first use. */
  function DistinctKeys(keys: seq<Option<int>>): seq<int> {
    if keys == [] then []
    else
      var front, k := DistinctKeys(keys[..|keys| - 1]), keys[|keys| - 1];
      if k.None? || k.value in front then front else front + [k.value]
  }

  /** The list has no duplicates and is exactly the set of non-null keys. */
  lemma {:induction false} DistinctKeysExactly(keys: seq<Option<int>>)
    ensures forall i, j | 0 <= i < j < |DistinctKeys(keys)| :: DistinctKeys(keys)[i] != DistinctKeys(keys)[j]
    ensures forall k :: k in DistinctKeys(keys) <==> Some(k) in keys
  {
    if keys != [] {
      var front := keys[..|keys| - 1];
      DistinctKeysExactly(front);
      assert keys == front + [keys[|keys| - 1]];
    }
  }

  /** The last row with that id, which is the only one when ids are a primary key. */
  function Lookup<T>(rows: seq<T>, key: T -> int, id: int): (r: Option<T>)
    ensures r.None? <==> forall k | 0 <= k < |rows| :: key(rows[k]) != id
    ensures r.Some? ==> key(r.value) == id && r.value in rows
  {
    if rows == [] then None
    else if key(rows[|rows| - 1]) == id then Some(rows[|rows| - 1])
    else Lookup(rows[..|rows| - 1], key, id)
  }

  ghost predicate Unique<T>(rows: seq<T>, key: T -> int) {
    forall i, j | 0 <= i < |rows| && 0 <= j < |rows| && key(rows[i]) == key(rows[j]) :: rows[i] == rows[j]
  }

  /** One query for all the keys refines a query for each: when the answer holds, in any order, the rows of the table
      whose id is among the keys, every key finds what a lookup in the table would find. */
  lemma {:induction false} BatchIsLookup<T>(table: seq<T>, keys: seq<Option<int>>, rows: seq<T>, key: T -> int, fk: int)
    requires Unique(table, key) && Some(fk) in keys
    requires forall r :: r in rows <==> r in table && key(r) in DistinctKeys(keys)
    ensures Lookup(rows, key, fk) == Lookup(table, key, fk)
  {
    hide DistinctKeys;
    DistinctKeysExactly(keys);
    var r, t := Lookup(rows, key, fk), Lookup(table, key, fk);
    if t.Some? { assert t.value in rows; }
    if r.Some? { assert r.value in table; }
  }

  // ----- One node, many neighbours: the foreign key is on the neighbour

  /** The rows whose key is `id`, in order. */
  function Mine<T>(rows: seq<T>, key: T -> Option<int>, id: int): seq<T> {
    if rows == [] then []
    else
      Mine(rows[..|rows| - 1], key, id) + if key(rows[|rows| - 1]) == Some(id) then [rows[|rows| - 1]] else []
  }

  /** The positions of those rows. */
  function Places<T>(rows: seq<T>, key: T -> Option<int>, id: int): seq<nat> {
    if rows == [] then []
    else
      Places(rows[..|rows| - 1], key, id) + if key(rows[|rows| - 1]) == Some(id) then [|rows| - 1] else []
  }

  ghost predicate Upwards(ks: seq<nat>, n: nat) {
    (forall i, j | 0 <= i < j < |ks| :: ks[i] < ks[j]) && forall i | 0 <= i < |ks| :: ks[i] < n
  }

  /** They are all the rows with that key, in the order in which they come. */
  lemma {:induction false} MineInOrder<T>(rows: seq<T>, key: T -> Option<int>, id: int)
    ensures var ks, mine := Places(rows, key, id), Mine(rows, key, id);
            && Upwards(ks, |rows|) && |ks| == |mine|
            && (forall i | 0 <= i < |mine| :: mine[i] == rows[ks[i]])
            && (forall k | 0 <= k < |rows| :: k in ks <==> key(rows[k]) == Some(id))
    decreases |rows|
  {
    if rows != [] {
      var n := |rows| - 1;
      MineInOrder(rows[..n], key, id);
      assert forall k | 0 <= k < n :: rows[..n][k] == rows[k];
    }
  }

  /** The position of the last id equal to `id`, or the length: a map filled in a loop keeps the last one. */
  function LastOf(ids: seq<int>, id: int): (k: nat)
    ensures k <= |ids|
    ensures k < |ids| ==> ids[k] == id && forall j | k < j < |ids| :: ids[j] != id
    ensures k == |ids| ==> forall j | 0 <= j < |ids| :: ids[j] != id
  {
    if ids == [] then 0
    else if ids[|ids| - 1] == id then |ids| - 1
    else
      var k := LastOf(ids[..|ids| - 1], id);
      if k == |ids| - 1 then |ids| else k
  }

  /** What the k-th node gets: the node that comes last with an id gets all its neighbours. */
  function Share<T>(ids: seq<int>, rows: seq<T>, key: T -> Option<int>, k: nat): seq<T>
    requires k < |ids|
  {
    if LastOf(ids, ids[k]) == k then Mine(rows, key, ids[k]) else []
  }

  predicate Honours<T>(ids: seq<int>, rows: seq<T>, key: T -> Option<int>) {
    forall k | 0 <= k < |rows| :: key(rows[k]).Some? && key(rows[k]).value in ids
  }

  /** With distinct ids every node gets exactly its own rows. */
  lemma {:induction false} ShareIsMine<T>(ids: seq<int>, rows: seq<T>, key: T -> Option<int>, k: nat)
    requires k < |ids| && forall i, j | 0 <= i < j < |ids| :: ids[i] != ids[j]
    ensures Share(ids, rows, key, k) == Mine(rows, key, ids[k])
  {
    var m := LastOf(ids, ids[k]);
    assert m < |ids| && ids[m] == ids[k];
  }

  /** Of several nodes with one id the last gets the rows and the others nothing. */
  lemma {:induction false} ShareExactly<T>(ids: seq<int>, rows: seq<T>, key: T -> Option<int>, k: nat)
    requires k < |ids|
    ensures Share(ids, rows, key, k)
         == if exists j | k < j < |ids| :: ids[j] == ids[k] then [] else Mine(rows, key, ids[k])
  {
    hide Mine;
    var m := LastOf(ids, ids[k]);
    assert m < |ids| && ids[m] == ids[k];
  }

  function Sum(counts: seq<nat>): nat { if counts == [] then 0 else Sum(counts[..|counts| - 1]) + counts[|counts| - 1] }

  function Shares<T>(ids: seq<int>, rows: seq<T>, key: T -> Option<int>): seq<nat> {
    seq(|ids|, k requires 0 <= k < |ids| => |Share(ids, rows, key, k)|)
  }

  lemma {:induction false} SumBump(a: seq<nat>, b: seq<nat>, k: nat)
    requires |a| == |b| && k < |a| && b == a[k := a[k] + 1]
    ensures Sum(b) == Sum(a) + 1
    decreases |a|
  {
    var n := |a| - 1;
    if k < n {
      assert b[..n] == a[..n][k := a[k] + 1];
      SumBump(a[..n], b[..n], k);
    } else {
      assert b[..n] == a[..n];
    }
  }

  lemma {:induction false} SumZero(a: seq<nat>)
    requires forall k | 0 <= k < |a| :: a[k] == 0
    ensures Sum(a) == 0
    decreases |a|
  {
    if a != [] { SumZero(a[..|a| - 1]); }
  }

  /** Every neighbour is attached exactly once, over all nodes. */
  lemma {:induction false} EachAttachedOnce<T>(ids: seq<int>, rows: seq<T>, key: T -> Option<int>)
    requires Honours(ids, rows, key)
    ensures Sum(Shares(ids, rows, key)) == |rows|
    decreases |rows|
  {
    hide Sum;
    if rows == [] {
      SumZero(Shares(ids, rows, key));
    } else {
      var n := |rows| - 1;
      EachAttachedOnce(ids, rows[..n], key);
      var k := LastOf(ids, key(rows[n]).value);
      var a, b := Shares(ids, rows[..n], key), Shares(ids, rows, key);
      assert b == a[k := a[k] + 1];
      SumBump(a, b, k);
    }
  }

  // ----- Many nodes, many neighbours

  predicate Known(rows: seq<JoinRow>, group: int) { exists k | 0 <= k < |rows| :: rows[k].group.id == group }

  predicate Joined(rows: seq<JoinRow>, account: int, group: int) {
    exists k | 0 <= k < |rows| :: rows[k].account == account && rows[k].group.id == group
  }

  /** The groups of the rows, each once, as first read. */
  function Neighbors(rows: seq<JoinRow>): seq<Group> {
    if rows == [] then []
    else
      var front, g := rows[..|rows| - 1], rows[|rows| - 1].group;
      if Known(front, g.id) then Neighbors(front) else Neighbors(front) + [g]
  }

  predicate Listed(groups: seq<Group>, group: int) { exists k | 0 <= k < |groups| :: groups[k].id == group }

  lemma NoneListed(group: int)
    ensures !Listed([], group)
  {
  }

  lemma ListedSnoc(groups: seq<Group>, g: Group, group: int)
    ensures Listed(groups + [g], group) <==> Listed(groups, group) || g.id == group
  {
    assert (groups + [g])[|groups|] == g;
    if k :| 0 <= k < |groups| && groups[k].id == group { assert (groups + [g])[k].id == group; }
  }

  lemma {:induction false} NeighborsListed(rows: seq<JoinRow>, group: int)
    ensures Listed(Neighbors(rows), group) <==> Known(rows, group)
  {
    hide Listed;
    if rows == [] {
      NoneListed(group);
    } else {
      var n := |rows| - 1;
      NeighborsListed(rows[..n], group);
      ListedSnoc(Neighbors(rows[..n]), rows[n].group, group);
      assert forall k | 0 <= k < n :: rows[..n][k] == rows[k];
    }
  }

  lemma {:induction false} NeighborsDistinct(rows: seq<JoinRow>)
    ensures forall i, j | 0 <= i < j < |Neighbors(rows)| :: Neighbors(rows)[i].id != Neighbors(rows)[j].id
  {
    hide Known;
    if rows != [] {
      var n := |rows| - 1;
      NeighborsDistinct(rows[..n]);
      NeighborsListed(rows[..n], rows[n].group.id);
    }
  }

  /** Those of the groups that are joined with the account. */
  function Picked(groups: seq<Group>, rows: seq<JoinRow>, account: int): seq<Group> {
    if groups == [] then []
    else
      var g := groups[|groups| - 1];
      Picked(groups[..|groups| - 1], rows, account) + if Joined(rows, account, g.id) then [g] else []
  }

  function GroupsOf(rows: seq<JoinRow>, account: int): seq<Group> { Picked(Neighbors(rows), rows, account) }

  lemma {:induction false} PickedExactly(groups: seq<Group>, rows: seq<JoinRow>, account: int)
    requires forall i, j | 0 <= i < j < |groups| :: groups[i].id != groups[j].id
    ensures var p := Picked(groups, rows, account);
            && (forall g :: g in p <==> g in groups && Joined(rows, account, g.id))
            && (forall i, j | 0 <= i < j < |p| :: p[i].id != p[j].id)
    decreases |groups|
  {
    hide Joined;
    if groups != [] {
      var n := |groups| - 1;
      PickedExactly(groups[..n], rows, account);
      assert groups == groups[..n] + [groups[n]];
    }
  }

  /** The eager edges are the naive join: an account has exactly the groups it is joined with, each once, however
      often and in whatever order the rows come. */
  lemma {:induction false} GroupsAreJoin(rows: seq<JoinRow>, account: int, group: int)
    ensures var p := GroupsOf(rows, account);
            && ((exists k | 0 <= k < |p| :: p[k].id == group) <==> Joined(rows, account, group))
            && (forall i, j | 0 <= i < j < |p| :: p[i].id != p[j].id)
  {
    hide Picked, Neighbors;
    NeighborsDistinct(rows);
    NeighborsListed(rows, group);
    PickedExactly(Neighbors(rows), rows, account);
    var p := GroupsOf(rows, account);
    if Joined(rows, account, group) {
      assert Known(rows, group);
      var k :| 0 <= k < |Neighbors(rows)| && Neighbors(rows)[k].id == group;
      assert Neighbors(rows)[k] in p;
    }
    if k :| 0 <= k < |p| && p[k].id == group { assert p[k] in p; }
  }

  // ----- The order of the groups

  /** The first row that shows the group, or the number of rows. */
  function FirstRow(rows: seq<JoinRow>, group: int): (k: nat)
    ensures k <= |rows| && forall j | 0 <= j < k :: rows[j].group.id != group
    ensures k < |rows| ==> rows[k].group.id == group
  {
    if rows == [] then 0
    else
      var n := |rows| - 1;
      var k := FirstRow(rows[..n], group);
      if k < n || rows[n].group.id == group then k else |rows|
  }

  function GroupIds(groups: seq<Group>): (r: seq<int>)
    ensures |r| == |groups|
  {
    seq(|groups|, k requires 0 <= k < |groups| => groups[k].id)
  }

  /** Strictly increasing in `rank`. */
  ghost predicate Ranked(ids: seq<int>, rank: int -> int) {
    forall i, j | 0 <= i < j < |ids| :: rank(ids[i]) < rank(ids[j])
  }

  function ByFirstRow(rows: seq<JoinRow>): int -> int { (g: int) => FirstRow(rows, g) }

  /** The groups come in the order of their first rows. */
  lemma {:induction false} NeighborsRanked(rows: seq<JoinRow>)
    ensures Ranked(GroupIds(Neighbors(rows)), ByFirstRow(rows))
  {
    if rows != [] {
      var n := |rows| - 1;
      var front, groups := rows[..n], Neighbors(rows[..n]);
      NeighborsRanked(front);
      forall k | 0 <= k < |groups| ensures FirstRow(rows, groups[k].id) == FirstRow(front, groups[k].id) < n {
        assert Listed(groups, groups[k].id);
        NeighborsListed(front, groups[k].id);
      }
      forall i, j | 0 <= i < j < |groups| ensures FirstRow(rows, groups[i].id) < FirstRow(rows, groups[j].id) {
        assert ByFirstRow(front)(GroupIds(groups)[i]) < ByFirstRow(front)(GroupIds(groups)[j]);
      }
      hide FirstRow, Known, Neighbors;
      NeighborsSnoc(rows);
      if !Known(front, rows[n].group.id) { RankedSnoc(groups, rows[n].group, ByFirstRow(rows)); }
    }
  }

  lemma NeighborsSnoc(rows: seq<JoinRow>)
    requires rows != []
    ensures var n := |rows| - 1;
            var g := rows[n].group;
            && Neighbors(rows) == Neighbors(rows[..n]) + (if Known(rows[..n], g.id) then [] else [g])
            && (!Known(rows[..n], g.id) ==> FirstRow(rows, g.id) == n)
  {
    assert Neighbors(rows[..|rows| - 1]) + [] == Neighbors(rows[..|rows| - 1]);
  }

  lemma RankedSnoc(groups: seq<Group>, g: Group, rank: int -> int)
    requires Ranked(GroupIds(groups), rank) && forall k | 0 <= k < |groups| :: rank(groups[k].id) < rank(g.id)
    ensures Ranked(GroupIds(groups + [g]), rank)
  {
    assert GroupIds(groups + [g]) == GroupIds(groups) + [g.id];
  }

  lemma {:induction false} PickedIn(groups: seq<Group>, rows: seq<JoinRow>, account: int, g: Group)
    requires g in Picked(groups, rows, account)
    ensures g in groups
    decreases |groups|
  {
    hide Joined;
    if groups != [] {
      var n := |groups| - 1;
      if g != groups[n] { PickedIn(groups[..n], rows, account, g); }
    }
  }

  lemma RankedBefore(groups: seq<Group>, rank: int -> int, g: Group)
    requires groups != [] && Ranked(GroupIds(groups), rank) && g in groups[..|groups| - 1]
    ensures rank(g.id) < rank(groups[|groups| - 1].id)
  {
    var n, ids := |groups| - 1, GroupIds(groups);
    var m :| 0 <= m < n && groups[..n][m] == g;
    assert rank(ids[m]) < rank(ids[n]);
  }

  lemma RankedFront(groups: seq<Group>, rank: int -> int)
    requires groups != [] && Ranked(GroupIds(groups), rank)
    ensures Ranked(GroupIds(groups[..|groups| - 1]), rank)
  {
    assert GroupIds(groups[..|groups| - 1]) == GroupIds(groups)[..|groups| - 1];
  }

  lemma {:induction false} PickedRanked(groups: seq<Group>, rows: seq<JoinRow>, account: int, rank: int -> int)
    requires Ranked(GroupIds(groups), rank)
    ensures Ranked(GroupIds(Picked(groups, rows, account)), rank)
    decreases |groups|
  {
    hide Joined, Ranked, GroupIds;
    if groups != [] {
      var n := |groups| - 1;
      RankedFront(groups, rank);
      PickedRanked(groups[..n], rows, account, rank);
      var p := Picked(groups[..n], rows, account);
      forall k | 0 <= k < |p| ensures rank(p[k].id) < rank(groups[n].id) {
        PickedIn(groups[..n], rows, account, p[k]);
        RankedBefore(groups, rank, p[k]);
      }
      RankedSnoc(p, groups[n], rank);
      assert p + [] == p;
    } else {
      NoneRanked(rank);
    }
  }

  lemma NoneRanked(rank: int -> int)
    ensures Ranked(GroupIds([]), rank)
  {
  }

  lemma {:induction false} NeighborsShown(rows: seq<JoinRow>, g: Group)
    requires g in Neighbors(rows)
    ensures FirstRow(rows, g.id) < |rows| && rows[FirstRow(rows, g.id)].group == g
  {
    hide Known;
    var n := |rows| - 1;
    NeighborsSnoc(rows);
    if g in Neighbors(rows[..n]) {
      NeighborsShown(rows[..n], g);
      assert rows[..n][FirstRow(rows[..n], g.id)] == rows[FirstRow(rows[..n], g.id)];
    }
  }

  /** Every group is attached as the first row with its id shows it. */
  lemma {:induction false} GroupsShown(rows: seq<JoinRow>, account: int, k: nat)
    requires k < |GroupsOf(rows, account)|
    ensures var g := GroupsOf(rows, account)[k];
            FirstRow(rows, g.id) < |rows| && rows[FirstRow(rows, g.id)].group == g
  {
    hide Picked, Neighbors, FirstRow;
    PickedIn(Neighbors(rows), rows, account, GroupsOf(rows, account)[k]);
    NeighborsShown(rows, GroupsOf(rows, account)[k]);
  }

  /** An account's groups come in the order of their first rows, over the rows of all accounts. */
  lemma {:induction false} OrderIsShared(rows: seq<JoinRow>, account: int)
    ensures Ranked(GroupIds(GroupsOf(rows, account)), ByFirstRow(rows))
  {
    hide Ranked, Picked, Neighbors;
    NeighborsRanked(rows);
    PickedRanked(Neighbors(rows), rows, account, ByFirstRow(rows));
  }

  // ----- When it is the account's own order

  function OwnRows(rows: seq<JoinRow>, account: int): seq<JoinRow> {
    if rows == [] then []
    else
      var r := rows[|rows| - 1];
      OwnRows(rows[..|rows| - 1], account) + if r.account == account then [r] else []
  }

  lemma {:induction false} OwnRowsKnown(rows: seq<JoinRow>, account: int, group: int)
    ensures Known(OwnRows(rows, account), group) <==> Joined(rows, account, group)
  {
    if rows != [] {
      var n := |rows| - 1;
      OwnRowsKnown(rows[..n], account, group);
      KnownSnoc(OwnRows(rows[..n], account), rows[n], group);
      assert OwnRows(rows[..n], account) + [] == OwnRows(rows[..n], account);
      JoinedSnoc(rows, account, group);
    }
  }

  lemma KnownSnoc(rows: seq<JoinRow>, r: JoinRow, group: int)
    ensures Known(rows + [r], group) <==> Known(rows, group) || r.group.id == group
  {
    assert (rows + [r])[|rows|] == r;
    if k :| 0 <= k < |rows| && rows[k].group.id == group { assert (rows + [r])[k].group.id == group; }
  }

  lemma JoinedSnoc(rows: seq<JoinRow>, account: int, group: int)
    requires rows != []
    ensures var n := |rows| - 1;
            Joined(rows, account, group) <==>
              Joined(rows[..n], account, group) || (rows[n].account == account && rows[n].group.id == group)
  {
    var n := |rows| - 1;
    assert forall k | 0 <= k < n :: rows[..n][k] == rows[k];
  }

  ghost predicate SameIds(xs: seq<int>, ys: seq<int>) {
    (forall g | g in xs :: g in ys) && forall g | g in ys :: g in xs
  }

  /** Two lists of the same ids, each strictly increasing in the same rank, are equal. */
  lemma {:induction false} RankedUnique(xs: seq<int>, ys: seq<int>, rank: int -> int)
    requires Ranked(xs, rank) && Ranked(ys, rank) && SameIds(xs, ys)
    ensures xs == ys
    decreases |xs|
  {
    SomeId(xs, ys);
    if xs != [] {
      var m, n := |xs| - 1, |ys| - 1;
      var x := xs[m];
      assert x in xs && x in ys;
      var y := ys[n];
      assert y in ys && y in xs;
      LastIsTop(xs, rank);
      LastIsTop(ys, rank);
      assert rank(x) == rank(y) && x == y;
      forall g | g in xs[..m] ensures g in ys[..n] { assert g in xs && g != x; }
      forall g | g in ys[..n] ensures g in xs[..m] { assert g in ys && g != y; }
      hide Ranked;
      RankedUnique(xs[..m], ys[..n], rank);
    }
  }

  lemma SomeId(xs: seq<int>, ys: seq<int>)
    requires SameIds(xs, ys)
    ensures ys != [] ==> xs != []
  {
    if ys != [] {
      var y := ys[0];
      assert y in ys && y in xs;
    }
  }

  lemma LastIsTop(xs: seq<int>, rank: int -> int)
    requires Ranked(xs, rank) && xs != []
    ensures var last := xs[|xs| - 1];
            && Ranked(xs[..|xs| - 1], rank)
            && (forall g | g in xs :: rank(g) <= rank(last) && (rank(g) == rank(last) ==> g == last))
            && (forall g :: g in xs[..|xs| - 1] <==> g in xs && g != last)
  {
    var n := |xs| - 1;
    forall g | g in xs ensures rank(g) <= rank(xs[n]) && (g == xs[n] || (rank(g) < rank(xs[n]) && g in xs[..n])) {
      var i :| 0 <= i < |xs| && xs[i] == g;
      if i < n { assert xs[..n][i] == g; }
    }
    forall g | g in xs[..n] ensures g in xs && g != xs[n] {
      var i :| 0 <= i < n && xs[..n][i] == g;
      assert xs[i] == g && rank(xs[i]) < rank(xs[n]);
    }
  }

  /** The two ranks order the listed ids alike. */
  ghost predicate Alike(ids: seq<int>, f: int -> int, f': int -> int) {
    forall g, h | g in ids && h in ids :: f(g) < f(h) <==> f'(g) < f'(h)
  }

  /** Two lists of the same ids, each increasing in its own rank, are equal exactly when the ranks order them alike. */
  lemma {:induction false} RankedEqual(xs: seq<int>, ys: seq<int>, f: int -> int, f': int -> int)
    requires Ranked(xs, f) && Ranked(ys, f') && SameIds(xs, ys)
    ensures xs == ys <==> Alike(xs, f, f')
  {
    if xs == ys {
      forall g, h | g in xs && h in xs ensures f(g) < f(h) <==> f'(g) < f'(h) {
        var i :| 0 <= i < |xs| && xs[i] == g;
        var j :| 0 <= j < |xs| && xs[j] == h;
        RankedAt(xs, f, i, j);
        RankedAt(ys, f', i, j);
      }
    }
    if Alike(xs, f, f') {
      forall i, j | 0 <= i < j < |ys| ensures f(ys[i]) < f(ys[j]) {
        var g, h := ys[i], ys[j];
        assert g in ys && h in ys && f'(g) < f'(h);
      }
      RankedUnique(xs, ys, f);
    }
  }

  lemma RankedAt(ids: seq<int>, f: int -> int, i: nat, j: nat)
    requires Ranked(ids, f) && i < |ids| && j < |ids|
    ensures f(ids[i]) < f(ids[j]) <==> i < j
  {
    if j < i { assert f(ids[j]) < f(ids[i]); }
  }

  /** Every two groups of the account have their first rows, over all rows, in the same order as among its own. */
  ghost predicate OwnOrder(rows: seq<JoinRow>, account: int) {
    forall g, h | Joined(rows, account, g) && Joined(rows, account, h) ::
      FirstRow(rows, g) < FirstRow(rows, h) <==>
        FirstRow(OwnRows(rows, account), g) < FirstRow(OwnRows(rows, account), h)
  }

  lemma {:induction false} IdListed(groups: seq<Group>, group: int)
    ensures group in GroupIds(groups) <==> Listed(groups, group)
  {
    if group in GroupIds(groups) {
      var k :| 0 <= k < |groups| && GroupIds(groups)[k] == group;
      assert groups[k].id == group;
    }
    if k :| 0 <= k < |groups| && groups[k].id == group { assert GroupIds(groups)[k] == group; }
  }

  /** An account's groups are the groups of its own rows in their own order exactly when the other accounts' rows do not
      bring two of them up in the opposite order. */
  lemma {:induction false} OwnOrderExactly(rows: seq<JoinRow>, account: int)
    ensures GroupIds(GroupsOf(rows, account)) == GroupIds(Neighbors(OwnRows(rows, account))) <==> OwnOrder(rows, account)
  {
    hide Ranked, Neighbors, GroupsOf, GroupIds, Joined, OwnRows, FirstRow, Listed, Known;
    var xs, own := GroupIds(GroupsOf(rows, account)), OwnRows(rows, account);
    var ys := GroupIds(Neighbors(own));
    OrderIsShared(rows, account);
    NeighborsRanked(own);
    forall g ensures (g in xs <==> Joined(rows, account, g)) && (g in ys <==> Joined(rows, account, g)) {
      IdListed(GroupsOf(rows, account), g);
      GroupsAreListed(rows, account, g);
      IdListed(Neighbors(own), g);
      NeighborsListed(own, g);
      OwnRowsKnown(rows, account, g);
    }
    RankedEqual(xs, ys, ByFirstRow(rows), ByFirstRow(own));
    assert Alike(xs, ByFirstRow(rows), ByFirstRow(own)) <==> OwnOrder(rows, account);
  }

  lemma GroupsAreListed(rows: seq<JoinRow>, account: int, group: int)
    ensures Listed(GroupsOf(rows, account), group) <==> Joined(rows, account, group)
  {
    hide GroupsOf, Joined;
    GroupsAreJoin(rows, account, group);
  }

  // ----- Rows sorted by group

  /** The rows are sorted by a rank that tells groups apart. */
  ghost predicate SortedBy(rows: seq<JoinRow>, rank: int -> int) {
    forall i, j | 0 <= i < j < |rows| ::
      && rank(rows[i].group.id) <= rank(rows[j].group.id)
      && (rank(rows[i].group.id) == rank(rows[j].group.id) ==> rows[i].group.id == rows[j].group.id)
  }

  ghost predicate Behind(r: JoinRow, last: JoinRow, rank: int -> int) {
    && rank(r.group.id) <= rank(last.group.id)
    && (rank(r.group.id) == rank(last.group.id) ==> r.group.id == last.group.id)
  }

  lemma SortedSnoc(rows: seq<JoinRow>, last: JoinRow, rank: int -> int)
    requires SortedBy(rows, rank) && forall k | 0 <= k < |rows| :: Behind(rows[k], last, rank)
    ensures SortedBy(rows + [last], rank)
  {
  }

  lemma {:induction false} OwnRowsBehind(rows: seq<JoinRow>, account: int, last: JoinRow, rank: int -> int)
    requires forall k | 0 <= k < |rows| :: Behind(rows[k], last, rank)
    ensures forall k | 0 <= k < |OwnRows(rows, account)| :: Behind(OwnRows(rows, account)[k], last, rank)
  {
    hide Behind;
    if rows != [] { OwnRowsBehind(rows[..|rows| - 1], account, last, rank); }
  }

  lemma SortedFront(rows: seq<JoinRow>, rank: int -> int)
    requires SortedBy(rows, rank) && rows != []
    ensures var n := |rows| - 1;
            SortedBy(rows[..n], rank) && forall k | 0 <= k < n :: Behind(rows[..n][k], rows[n], rank)
  {
  }

  lemma {:induction false} OwnRowsSorted(rows: seq<JoinRow>, account: int, rank: int -> int)
    requires SortedBy(rows, rank)
    ensures SortedBy(OwnRows(rows, account), rank)
  {
    if rows != [] {
      hide SortedBy, Behind;
      var n := |rows| - 1;
      var own := OwnRows(rows[..n], account);
      SortedFront(rows, rank);
      OwnRowsSorted(rows[..n], account, rank);
      OwnRowsBehind(rows[..n], account, rows[n], rank);
      SortedSnoc(own, rows[n], rank);
      assert own + [] == own;
    }
  }

  lemma SortedFirst(rows: seq<JoinRow>, rank: int -> int, g: int, h: int)
    requires SortedBy(rows, rank) && Known(rows, g) && Known(rows, h)
    ensures FirstRow(rows, g) < FirstRow(rows, h) <==> rank(g) < rank(h)
  {
    var i, j := FirstRow(rows, g), FirstRow(rows, h);
    assert i < |rows| && j < |rows|;
    assert rows[i].group.id == g && rows[j].group.id == h;
  }

  /** Rows sorted by group, whatever the order on groups, give every account its own order. */
  lemma {:induction false} SortedRowsKeepOrder(rows: seq<JoinRow>, rank: int -> int, account: int)
    requires SortedBy(rows, rank)
    ensures GroupIds(GroupsOf(rows, account)) == GroupIds(Neighbors(OwnRows(rows, account)))
  {
    hide SortedBy, GroupsOf, GroupIds, Neighbors, OwnRows, FirstRow, Known, Joined;
    OwnRowsSorted(rows, account, rank);
    forall g, h | Joined(rows, account, g) && Joined(rows, account, h)
      ensures FirstRow(rows, g) < FirstRow(rows, h) <==>
                FirstRow(OwnRows(rows, account), g) < FirstRow(OwnRows(rows, account), h)
    {
      OwnRowsKnown(rows, account, g);
      OwnRowsKnown(rows, account, h);
      JoinedKnown(rows, account, g);
      JoinedKnown(rows, account, h);
      SortedFirst(rows, rank, g, h);
      SortedFirst(OwnRows(rows, account), rank, g, h);
    }
    OwnOrderExactly(rows, account);
  }

  lemma JoinedKnown(rows: seq<JoinRow>, account: int, group: int)
    requires Joined(rows, account, group)
    ensures Known(rows, group)
  {
  }

  // ----- When it is not

  lemma OwnRowsPush(rows: seq<JoinRow>, r: JoinRow, account: int)
    ensures OwnRows(rows + [r], account) == OwnRows(rows, account) + if r.account == account then [r] else []
  {
    assert (rows + [r])[..|rows|] == rows;
  }

  lemma NeighborsPush(rows: seq<JoinRow>, r: JoinRow)
    ensures Neighbors(rows + [r]) == if Known(rows, r.group.id) then Neighbors(rows) else Neighbors(rows) + [r.group]
  {
    assert (rows + [r])[..|rows|] == rows;
  }

  lemma PickedPush(groups: seq<Group>, g: Group, rows: seq<JoinRow>, account: int)
    requires Joined(rows, account, g.id)
    ensures Picked(groups + [g], rows, account) == Picked(groups, rows, account) + [g]
  {
    assert (groups + [g])[..|groups|] == groups;
  }

  lemma NothingThere(account: int, group: int)
    ensures OwnRows([], account) == [] && Neighbors([]) == [] && !Known([], group)
  {
  }

  lemma TurnedRows(a: Group, b: Group)
    requires a.id != b.id
    ensures Neighbors([JoinRow(1, b)] + [JoinRow(2, a)] + [JoinRow(2, b)]) == [b, a]
  {
    hide Neighbors, Known;
    var r, s, t := JoinRow(1, b), JoinRow(2, a), JoinRow(2, b);
    NothingThere(2, b.id);
    NothingThere(2, a.id);
    NeighborsPush([], r);
    KnownSnoc([], r, a.id);
    KnownSnoc([], r, b.id);
    assert [] + [r] == [r];
    NeighborsPush([r], s);
    KnownSnoc([r], s, b.id);
    NeighborsPush([r] + [s], t);
  }

  lemma TurnedOwn(a: Group, b: Group)
    requires a.id != b.id
    ensures Neighbors(OwnRows([JoinRow(1, b)] + [JoinRow(2, a)] + [JoinRow(2, b)], 2)) == [a, b]
  {
    hide Neighbors, Known, OwnRows;
    var r, s, t := JoinRow(1, b), JoinRow(2, a), JoinRow(2, b);
    NothingThere(2, b.id);
    NothingThere(2, a.id);
    OwnRowsPush([], r, 2);
    OwnRowsPush([r], s, 2);
    OwnRowsPush([r] + [s], t, 2);
    assert [] + [r] == [r] && [] + [s] == [s] && OwnRows([r] + [s] + [t], 2) == [s] + [t];
    NeighborsPush([], s);
    KnownSnoc([], s, b.id);
    NeighborsPush([s], t);
  }

  /** Another account's row can turn the order of an account's own rows round. */
  lemma {:induction false} OrderTurned(a: Group, b: Group)
    requires a.id != b.id
    ensures var rows := [JoinRow(1, b), JoinRow(2, a), JoinRow(2, b)];
            GroupsOf(rows, 2) == [b, a] && Neighbors(OwnRows(rows, 2)) == [a, b]
  {
    hide Neighbors, OwnRows, Picked;
    var rows := [JoinRow(1, b), JoinRow(2, a), JoinRow(2, b)];
    assert rows == [JoinRow(1, b)] + [JoinRow(2, a)] + [JoinRow(2, b)];
    TurnedRows(a, b);
    TurnedOwn(a, b);
    assert rows[1].group.id == a.id && rows[2].group.id == b.id;
    assert Joined(rows, 2, a.id) && Joined(rows, 2, b.id);
    PickedPush([], b, rows, 2);
    PickedPush([b], a, rows, 2);
    assert [] + [b] == [b] && [b] + [a] == [b, a];
    PickedNone(rows, 2);
  }

  lemma PickedNone(rows: seq<JoinRow>, account: int)
    ensures Picked([], rows, account) == []
  {
  }
}
