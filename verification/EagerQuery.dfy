/** Which columns a query reads, and the edges its accounts get whatever is selected. */
module EagerQuery {
  import opened PyText
  import opened EagerJoin
  import opened EagerLoad

  // ----- Projection

  datatype Column = Id | ProxyId | ParentId | AccountId | GroupId | Other(name: string)

  const ACCOUNT_COLUMNS := [
    Id, Other("created_at"), Other("updated_at"), Other("deleted_at"), Other("name"), Other("notes"),
    Other("platform"), Other("type"), Other("credentials"), Other("extra"), ProxyId,
    Other("proxy_fallback_origin_id"), Other("concurrency"), Other("load_factor"), Other("priority"),
    Other("rate_multiplier"), Other("status"), Other("error_message"), Other("last_used_at"), Other("expires_at"),
    Other("auto_pause_on_expired"), Other("schedulable"), Other("rate_limited_at"), Other("rate_limit_reset_at"),
    Other("overload_until"), Other("temp_unschedulable_until"), Other("temp_unschedulable_reason"),
    Other("session_window_start"), Other("session_window_end"), Other("session_window_status"), ParentId,
    Other("quota_dimension")]

  const USAGE_LOG_COLUMNS := [
    Id, Other("user_id"), Other("api_key_id"), AccountId, Other("request_id"), Other("model"),
    Other("requested_model"), Other("upstream_model"), Other("channel_id"), Other("model_mapping_chain"),
    Other("billing_tier"), Other("billing_mode"), GroupId, Other("subscription_id"), Other("input_tokens"),
    Other("output_tokens"), Other("cache_creation_tokens"), Other("cache_read_tokens"),
    Other("cache_creation_5m_tokens"), Other("cache_creation_1h_tokens"), Other("input_cost"),
    Other("output_cost"), Other("cache_creation_cost"), Other("cache_read_cost"), Other("total_cost"),
    Other("actual_cost"), Other("rate_multiplier"), Other("account_rate_multiplier"), Other("billing_type"),
    Other("stream"), Other("duration_ms"), Other("first_token_ms"), Other("user_agent"), Other("ip_address"),
    Other("image_count"), Other("image_size"), Other("image_input_size"), Other("image_output_size"),
    Other("image_size_source"), Other("image_size_breakdown"), Other("cache_ttl_overridden"), Other("created_at")]

  const GROUP_COLUMNS := [
    Id, Other("created_at"), Other("updated_at"), Other("deleted_at"), Other("name"), Other("description"),
    Other("rate_multiplier"), Other("peak_rate_enabled"), Other("peak_start"), Other("peak_end"),
    Other("peak_rate_multiplier"), Other("is_exclusive"), Other("status"), Other("platform"),
    Other("subscription_type"), Other("daily_limit_usd"), Other("weekly_limit_usd"), Other("monthly_limit_usd"),
    Other("default_validity_days"), Other("allow_image_generation"), Other("image_rate_independent"),
    Other("image_rate_multiplier"), Other("image_price_1k"), Other("image_price_2k"), Other("image_price_4k"),
    Other("claude_code_only"), Other("fallback_group_id"), Other("fallback_group_id_on_invalid_request"),
    Other("model_routing"), Other("model_routing_enabled"), Other("mcp_xml_inject"),
    Other("supported_model_scopes"), Other("sort_order"), Other("allow_messages_dispatch"),
    Other("require_oauth_only"), Other("require_privacy_set"), Other("default_mapped_model"),
    Other("messages_dispatch_model_config"), Other("models_list_config"), Other("rpm_limit")]

  const PROXY_COLUMNS := [
    Id, Other("created_at"), Other("updated_at"), Other("deleted_at"), Other("name"), Other("protocol"),
    Other("host"), Other("port"), Other("username"), Other("password"), Other("status"), Other("expires_at"),
    Other("fallback_mode"), Other("backup_proxy_id"), Other("expiry_warn_days")]

  const ACCOUNT_GROUP_COLUMNS := [AccountId, GroupId, Other("priority"), Other("created_at")]

  /** What is read of a row: a column that is not selected stays nil. */
  function Scan(columns: seq<Column>, r: Row): Row {
    Row(if Id in columns then r.id else 0,
        if ProxyId in columns then r.proxyId else None,
        if ParentId in columns then r.parentId else None)
  }

  /** A usage log or a membership as it is read: an integer column that is not selected stays 0. */
  function LogScan(columns: seq<Column>): UsageLog -> UsageLog {
    (l: UsageLog) => UsageLog(if Id in columns then l.id else 0, if AccountId in columns then l.accountId else 0)
  }

  function GroupScan(columns: seq<Column>): Group -> Group {
    (g: Group) => Group(if Id in columns then g.id else 0, if Other("name") in columns then g.name else "")
  }

  function ProxyScan(columns: seq<Column>): Proxy -> Proxy {
    (p: Proxy) => Proxy(if Id in columns then p.id else 0, if Other("name") in columns then p.name else "")
  }

  function MemberScan(columns: seq<Column>): AccountGroup -> AccountGroup {
    (g: AccountGroup) =>
      AccountGroup(if AccountId in columns then g.accountId else 0, if GroupId in columns then g.groupId else 0)
  }

  function WithoutId(fields: seq<Column>): seq<Column> {
    if fields == [] then []
    else WithoutId(fields[..|fields| - 1]) + if fields[|fields| - 1] != Id then [fields[|fields| - 1]] else []
  }

  function AddOnce(columns: seq<Column>, c: Column): seq<Column> { if c in columns then columns else columns + [c] }

  function Columns(fields: seq<Column>, proxy: bool, parent: bool): seq<Column> {
    if fields == [] then ACCOUNT_COLUMNS
    else
      var c := [Id] + WithoutId(fields);
      var d := if proxy then AddOnce(c, ProxyId) else c;
      if parent then AddOnce(d, ParentId) else d
  }

  lemma {:induction false} WithoutIdHas(fields: seq<Column>, c: Column)
    ensures c in WithoutId(fields) <==> c in fields && c != Id
  {
    if fields != [] {
      var n := |fields| - 1;
      assert fields == fields[..n] + [fields[n]];
      WithoutIdHas(fields[..n], c);
    }
  }

  /** The id first, whatever is selected; an empty selection reads every column. */
  function IdColumns(all: seq<Column>, fields: seq<Column>): seq<Column> {
    if fields == [] then all else [Id] + WithoutId(fields)
  }

  function LogColumns(fields: seq<Column>): seq<Column> { IdColumns(USAGE_LOG_COLUMNS, fields) }

  function GroupColumns(fields: seq<Column>): seq<Column> { IdColumns(GROUP_COLUMNS, fields) }

  function ProxyColumns(fields: seq<Column>): seq<Column> { IdColumns(PROXY_COLUMNS, fields) }

  function MemberColumns(fields: seq<Column>): seq<Column> {
    if fields == [] then ACCOUNT_GROUP_COLUMNS else fields
  }

  function WithKey(fields: seq<Column>, c: Column): seq<Column> { if fields == [] then [] else AddOnce(fields, c) }

  function Each<T>(rows: seq<T>, f: T -> T): (r: seq<T>)
    ensures |r| == |rows| && forall k | 0 <= k < |r| :: r[k] == f(rows[k])
  {
    seq(|rows|, k requires 0 <= k < |rows| => f(rows[k]))
  }

  /** With the key column among the selected ones, or none selected, a usage log is read whole, as far as loading looks
      at it; without it every key is read as 0. */
  lemma {:induction false} LogsRead(fields: seq<Column>, rows: seq<UsageLog>)
    ensures var read := Each(rows, LogScan(LogColumns(fields)));
            && (fields == [] || AccountId in fields ==> read == rows)
            && (fields != [] && AccountId !in fields ==>
                  forall k | 0 <= k < |rows| :: read[k] == UsageLog(rows[k].id, 0))
  {
    LogKeysRead(fields);
    hide LogColumns;
  }

  lemma LogKeysRead(fields: seq<Column>)
    ensures Id in LogColumns(fields)
    ensures AccountId in LogColumns(fields) <==> fields == [] || AccountId in fields
  {
    WithoutIdHas(fields, AccountId);
    assert USAGE_LOG_COLUMNS[0] == Id && USAGE_LOG_COLUMNS[3] == AccountId;
  }

  lemma MemberKeyRead(fields: seq<Column>)
    requires fields == [] || AccountId in fields
    ensures forall g :: MemberKey(MemberScan(MemberColumns(fields))(g)) == MemberKey(g)
  {
    assert ACCOUNT_GROUP_COLUMNS[0] == AccountId;
  }

  /** Reading the rows first or sharing them out first is the same, when reading keeps the key. */
  lemma {:induction false} EachMine<T(!new)>(rows: seq<T>, key: T -> Option<int>, f: T -> T, id: int)
    requires forall r :: key(f(r)) == key(r)
    ensures Mine(Each(rows, f), key, id) == Each(Mine(rows, key, id), f)
    decreases |rows|
  {
    if rows != [] {
      var n := |rows| - 1;
      EachMine(rows[..n], key, f, id);
      assert Each(rows, f)[..n] == Each(rows[..n], f);
      var m := Mine(rows[..n], key, id);
      assert (m + [rows[n]])[..|m|] == m && m + [] == m;
    }
  }

  lemma EachShare<T(!new)>(ids: seq<int>, rows: seq<T>, key: T -> Option<int>, f: T -> T, k: nat)
    requires k < |ids| && forall r :: key(f(r)) == key(r)
    ensures Share(ids, Each(rows, f), key, k) == Each(Share(ids, rows, key, k), f)
  {
    hide Each, Mine, LastOf;
    EachMine(rows, key, f, ids[k]);
    EachNone(f);
  }

  // ----- Groups and proxies: reading keeps the id

  lemma IdRead(all: seq<Column>, fields: seq<Column>)
    requires all != [] && all[0] == Id
    ensures var columns := IdColumns(all, fields); columns != [] && columns[0] == Id && Id in columns
  {
  }

  function ScanRows(rows: seq<JoinRow>, f: Group -> Group): (r: seq<JoinRow>)
    ensures |r| == |rows| && forall k | 0 <= k < |r| :: r[k] == JoinRow(rows[k].account, f(rows[k].group))
  {
    seq(|rows|, k requires 0 <= k < |rows| => JoinRow(rows[k].account, f(rows[k].group)))
  }

  lemma ScanSame(rows: seq<JoinRow>, f: Group -> Group, account: int, group: int)
    requires forall g: Group :: f(g).id == g.id
    ensures Known(ScanRows(rows, f), group) <==> Known(rows, group)
    ensures Joined(ScanRows(rows, f), account, group) <==> Joined(rows, account, group)
  {
    var r := ScanRows(rows, f);
    forall k | 0 <= k < |rows| ensures r[k].account == rows[k].account && r[k].group.id == rows[k].group.id {}
  }

  lemma {:induction false} EachSnoc<T>(rows: seq<T>, r: T, f: T -> T)
    ensures Each(rows + [r], f) == Each(rows, f) + [f(r)]
  {
  }

  lemma {:induction false} ScanNeighbors(rows: seq<JoinRow>, f: Group -> Group)
    requires forall g: Group :: f(g).id == g.id
    ensures Neighbors(ScanRows(rows, f)) == Each(Neighbors(rows), f)
    decreases |rows|
  {
    hide Known, Each;
    if rows == [] {
      EachNone(f);
    } else {
      var n := |rows| - 1;
      var front, g := rows[..n], rows[n].group;
      assert ScanRows(rows, f)[..n] == ScanRows(front, f) && ScanRows(rows, f)[n].group == f(g);
      hide ScanRows;
      ScanNeighbors(front, f);
      ScanSame(front, f, 0, g.id);
      EachSnoc(Neighbors(front), g, f);
    }
  }

  lemma {:induction false} ScanPicked(groups: seq<Group>, rows: seq<JoinRow>, f: Group -> Group, account: int)
    requires forall g: Group :: f(g).id == g.id
    ensures Picked(Each(groups, f), ScanRows(rows, f), account) == Each(Picked(groups, rows, account), f)
    decreases |groups|
  {
    hide Joined, ScanRows;
    if groups == [] {
      EachNone(f);
    } else {
      var n := |groups| - 1;
      var front, g := groups[..n], groups[n];
      assert Each(groups, f)[..n] == Each(front, f) && Each(groups, f)[n] == f(g);
      hide Each;
      ScanPicked(front, rows, f, account);
      ScanSame(rows, f, account, g.id);
      EachSnoc(Picked(front, rows, account), g, f);
      var p, q := Picked(front, rows, account), Each(Picked(front, rows, account), f);
      assert p + [] == p && q + [] == q;
    }
  }

  /** Reading the groups first or joining first is the same, when reading keeps the id. */
  lemma {:induction false} ScanGroups(rows: seq<JoinRow>, f: Group -> Group, account: int)
    requires forall g: Group :: f(g).id == g.id
    ensures GroupsOf(ScanRows(rows, f), account) == Each(GroupsOf(rows, account), f)
  {
    hide ScanRows, Neighbors, Picked, Each;
    ScanNeighbors(rows, f);
    ScanPicked(Neighbors(rows), rows, f, account);
  }

  function Read<T>(r: Option<T>, f: T -> T): Option<T> { match r case None => None case Some(x) => Some(f(x)) }

  lemma {:induction false} FoundEach(fk: Option<int>, rows: seq<Proxy>, f: Proxy -> Proxy)
    requires forall p :: f(p).id == p.id
    ensures Found(fk, Each(rows, f), ProxyRef, None) == Read(Found(fk, rows, ProxyRef, None), f)
    decreases |rows|
  {
    if rows != [] {
      var n := |rows| - 1;
      FoundEach(fk, rows[..n], f);
      assert Each(rows, f)[..n] == Each(rows[..n], f);
    }
  }

  lemma EachAnswers(keys: seq<Option<int>>, rows: seq<Proxy>, f: Proxy -> Proxy)
    requires forall p :: f(p).id == p.id
    ensures Answers(keys, Each(rows, f), ProxyRef) <==> Answers(keys, rows, ProxyRef)
  {
    var r := Each(rows, f);
    forall k | 0 <= k < |rows| ensures ProxyRef(r[k]) == ProxyRef(rows[k]) {}
    hide DistinctKeys, Each;
  }

  /** The value of a column in a result row: a number, a text, or something loading does not look at. */
  datatype Cell = Number(n: int) | Text(s: string) | Unseen

  function GroupCells(columns: seq<Column>, g: Group): (r: seq<Cell>)
    ensures |r| == |columns|
  {
    seq(|columns|, k requires 0 <= k < |columns| =>
      if columns[k] == Id then Number(g.id) else if columns[k] == Other("name") then Text(g.name) else Unseen)
  }

  /** A result row of the group query: the account column of the join table is put in front. */
  function JoinCells(columns: seq<Column>, r: JoinRow): seq<Cell> { [Number(r.account)] + GroupCells(columns, r.group) }

  /** Whatever is selected, the second value of a row is the group's id: the loader takes it from there. */
  lemma {:induction false} SecondIsId(fields: seq<Column>, r: JoinRow)
    ensures var cells := JoinCells(GroupColumns(fields), r);
            |cells| > 1 && cells[0] == Number(r.account) && cells[1] == Number(r.group.id)
  {
    IdRead(GROUP_COLUMNS, fields);
    hide IdColumns;
  }

  lemma EachNone<T>(f: T -> T)
    ensures Each([], f) == []
  {
  }

  lemma EachHonours<T(!new)>(ids: seq<int>, rows: seq<T>, key: T -> Option<int>, f: T -> T)
    requires forall r :: key(f(r)) == key(r)
    ensures Honours(ids, Each(rows, f), key) <==> Honours(ids, rows, key)
  {
    hide Each;
    forall k | 0 <= k < |rows| ensures key(Each(rows, f)[k]) == key(rows[k]) {}
  }

  /** Whatever is selected, the id comes first, and the keys of the edges that are asked for are read; nothing else is
      added to what is selected. */
  lemma {:induction false} ColumnsKeep(fields: seq<Column>, proxy: bool, parent: bool, c: Column)
    ensures var columns := Columns(fields, proxy, parent);
            && columns != [] && columns[0] == Id
            && (proxy ==> ProxyId in columns) && (parent ==> ParentId in columns)
            && (c in fields ==> c in columns || fields == [])
            && (fields != [] && c in columns ==>
                  c in fields || c == Id || (proxy && c == ProxyId) || (parent && c == ParentId))
  {
    WithoutIdHas(fields, c);
    assert ACCOUNT_COLUMNS[10] == ProxyId && ACCOUNT_COLUMNS[30] == ParentId;
  }

  datatype Reply = Reply(
    joins: seq<JoinRow>, proxies: seq<Proxy>, parents: seq<Row>, children: seq<Row>,
    usageLogs: seq<UsageLog>, accountGroups: seq<AccountGroup>)

  function RowIds(rows: seq<Row>): (r: seq<int>)
    ensures |r| == |rows|
  {
    seq(|rows|, k requires 0 <= k < |rows| => rows[k].id)
  }

  function RowRef(r: Row): int { r.id }

  function RowParent(r: Row): Option<int> { r.parentId }

  ghost function RowsOf(nodes: seq<Account>): (r: seq<Row>)
    ensures |r| == |nodes|
  {
    seq(|nodes|, k requires 0 <= k < |nodes| => nodes[k].row)
  }

  ghost function RowOf(a: Option<Account>): Option<Row> { if a.Some? then Some(a.value.row) else None }

  lemma {:induction false} FoundRow(fk: Option<int>, nodes: seq<Account>)
    requires forall k | 0 <= k < |nodes| :: nodes[k].id == nodes[k].row.id
    ensures RowOf(Found(fk, nodes, AccountRef, None)) == Found(fk, RowsOf(nodes), RowRef, None)
    decreases |nodes|
  {
    if nodes != [] {
      var n := |nodes| - 1;
      FoundRow(fk, nodes[..n]);
      assert RowsOf(nodes)[..n] == RowsOf(nodes[..n]);
    }
  }

  lemma {:induction false} MineRows(nodes: seq<Account>, id: int)
    requires forall k | 0 <= k < |nodes| :: nodes[k].parentId == nodes[k].row.parentId
    ensures RowsOf(Mine(nodes, ChildKey, id)) == Mine(RowsOf(nodes), RowParent, id)
    decreases |nodes|
  {
    if nodes == [] {
      assert RowsOf(nodes) == [];
    } else {
      var n := |nodes| - 1;
      MineRows(nodes[..n], id);
      assert RowsOf(nodes)[..n] == RowsOf(nodes[..n]);
    }
  }

  // ----- The edges of the stored rows

  /** A group's other columns are as far read as they are selected; so are a proxy's. */
  ghost predicate GroupsLoaded(nodes: seq<Account>, rows: seq<Row>, joins: seq<JoinRow>, columns: seq<Column>)
    reads nodes`groups
  {
    |nodes| == |rows| && forall k | 0 <= k < |nodes| ::
      nodes[k].groups == if LastOf(RowIds(rows), rows[k].id) == k
                         then Each(GroupsOf(joins, rows[k].id), GroupScan(columns)) else []
  }

  ghost predicate ProxyLoaded(nodes: seq<Account>, rows: seq<Row>, proxies: seq<Proxy>, columns: seq<Column>)
    reads nodes`proxy
  {
    |nodes| == |rows| && forall k | 0 <= k < |nodes| ::
      nodes[k].proxy == Read(Found(rows[k].proxyId, proxies, ProxyRef, None), ProxyScan(columns))
  }

  ghost predicate ParentLoaded(nodes: seq<Account>, rows: seq<Row>, parents: seq<Row>)
    reads nodes`parent
  {
    |nodes| == |rows| && forall k | 0 <= k < |nodes| ::
      RowOf(nodes[k].parent) == Found(rows[k].parentId, parents, RowRef, None)
  }

  ghost predicate ChildrenLoaded(nodes: seq<Account>, rows: seq<Row>, children: seq<Row>)
    reads nodes`children
  {
    |nodes| == |rows| && forall k | 0 <= k < |nodes| ::
      RowsOf(nodes[k].children) == Share(RowIds(rows), children, RowParent, k)
  }

  ghost predicate UsageLogsLoaded(nodes: seq<Account>, rows: seq<Row>, logs: seq<UsageLog>)
    reads nodes`usageLogs
  {
    |nodes| == |rows| && forall k | 0 <= k < |nodes| :: nodes[k].usageLogs == Share(RowIds(rows), logs, LogKey, k)
  }

  /** A membership's other columns are as far read as they are selected. */
  ghost predicate AccountGroupsLoaded(
      nodes: seq<Account>, rows: seq<Row>, members: seq<AccountGroup>, columns: seq<Column>)
    reads nodes`accountGroups
  {
    |nodes| == |rows| && forall k | 0 <= k < |nodes| ::
      nodes[k].accountGroups == Each(Share(RowIds(rows), members, MemberKey, k), MemberScan(columns))
  }

  ghost predicate ManyLoaded(q: AccountQuery, nodes: seq<Account>, rows: seq<Row>, reply: Reply)
    reads nodes`children, nodes`usageLogs, nodes`accountGroups
    reads if q.accountGroups != null then {q.accountGroups.ctx} else {}
  {
    && (q.children != null ==> ChildrenLoaded(nodes, rows, reply.children))
    && (q.usageLogs != null ==> UsageLogsLoaded(nodes, rows, reply.usageLogs))
    && (q.accountGroups != null ==>
          AccountGroupsLoaded(nodes, rows, reply.accountGroups, MemberColumns(q.accountGroups.ctx.fields)))
  }

  ghost predicate Loaded(q: AccountQuery, nodes: seq<Account>, rows: seq<Row>, reply: Reply)
    reads nodes, if q.accountGroups != null then {q.accountGroups.ctx} else {}
  {
    && (q.groups != null ==> GroupsLoaded(nodes, rows, reply.joins, GroupColumns(q.groups.fields)))
    && (q.proxy != null ==> ProxyLoaded(nodes, rows, reply.proxies, ProxyColumns(q.proxy.fields)))
    && (q.parent != null ==> ParentLoaded(nodes, rows, reply.parents))
    && ManyLoaded(q, nodes, rows, reply)
  }

  /** The selection of a query; an empty one selects every column. */
  class QueryContext {
    var fields: seq<Column>

    constructor (fields: seq<Column>)
      ensures this.fields == fields
    {
      this.fields := fields;
    }

    method AppendFieldOnce(c: Column)
      modifies this
      ensures fields == AddOnce(old(fields), c)
    {
      if c !in fields { fields := fields + [c]; }
    }

    /** The key a loader needs is added unless every column is selected anyway. */
    method NeedKey(c: Column)
      modifies this
      ensures fields == WithKey(old(fields), c)
    {
      if |fields| > 0 { AppendFieldOnce(c); }
    }
  }

  /** Loading never extends the selection of a group or proxy query. */
  class GroupQuery {
    const fields: seq<Column>

    constructor (fields: seq<Column>)
      ensures this.fields == fields
    {
      this.fields := fields;
    }

    method QuerySpec() returns (columns: seq<Column>)
      ensures columns == GroupColumns(fields)
    {
      columns := GROUP_COLUMNS;
      if |fields| > 0 { columns := SelectWithId(fields); }
    }

    /** Fills a group from the values of its columns. */
    method AssignValues(columns: seq<Column>, values: seq<Cell>, ghost stored: Group) returns (g: Group)
      requires values == GroupCells(columns, stored)
      ensures g == GroupScan(columns)(stored)
    {
      g := Group(0, "");
      for i := 0 to |columns|
        invariant g == GroupScan(columns[..i])(stored)
      {
        assert columns[..i + 1] == columns[..i] + [columns[i]];
        if columns[i] == Id {
          g := g.(id := values[i].n);
        } else if columns[i] == Other("name") {
          g := g.(name := values[i].s);
        }
      }
      assert columns[..|columns|] == columns;
    }

    /** The rows as the loader sees them: the account from the first value, the group from the others. */
    method Fetch(joins: seq<JoinRow>) returns (rows: seq<JoinRow>, keys: seq<int>)
      ensures rows == ScanRows(joins, GroupScan(GroupColumns(fields)))
      ensures |keys| == |rows| && forall k | 0 <= k < |rows| :: keys[k] == rows[k].group.id == joins[k].group.id
    {
      hide GroupColumns;
      var columns := QuerySpec();
      GroupIdRead(fields);
      rows, keys := [], [];
      for k := 0 to |joins|
        invariant rows == ScanRows(joins[..k], GroupScan(columns))
        invariant |keys| == k && forall j | 0 <= j < k :: keys[j] == joins[j].group.id
      {
        var values := JoinCells(columns, joins[k]);
        SecondIsId(fields, joins[k]);
        var group := AssignValues(columns, values[1..], joins[k].group);
        rows, keys := rows + [JoinRow(values[0].n, group)], keys + [values[1].n];
      }
      assert joins[..|joins|] == joins;
    }
  }

  lemma GroupIdRead(fields: seq<Column>)
    ensures forall g :: GroupScan(GroupColumns(fields))(g).id == g.id
  {
    IdRead(GROUP_COLUMNS, fields);
    hide IdColumns;
  }

  class ProxyQuery {
    const fields: seq<Column>

    constructor (fields: seq<Column>)
      ensures this.fields == fields
    {
      this.fields := fields;
    }

    method QuerySpec() returns (columns: seq<Column>)
      ensures columns == ProxyColumns(fields)
    {
      columns := PROXY_COLUMNS;
      if |fields| > 0 { columns := SelectWithId(fields); }
    }

    method Fetch(stored: seq<Proxy>) returns (proxies: seq<Proxy>)
      ensures proxies == Each(stored, ProxyScan(ProxyColumns(fields)))
    {
      hide ProxyColumns;
      var columns := QuerySpec();
      proxies := [];
      for k := 0 to |stored|
        invariant proxies == Each(stored[..k], ProxyScan(columns))
      {
        proxies := proxies + [ProxyScan(columns)(stored[k])];
      }
      assert stored[..|stored|] == stored;
    }
  }

  lemma ProxyIdRead(fields: seq<Column>)
    ensures forall p :: ProxyScan(ProxyColumns(fields))(p).id == p.id
  {
    IdRead(PROXY_COLUMNS, fields);
    hide IdColumns;
  }

  class UsageLogQuery {
    const ctx: QueryContext

    constructor (ctx: QueryContext)
      ensures this.ctx == ctx
    {
      this.ctx := ctx;
    }

    method QuerySpec() returns (columns: seq<Column>)
      ensures columns == LogColumns(ctx.fields)
    {
      columns := USAGE_LOG_COLUMNS;
      if |ctx.fields| > 0 { columns := SelectWithId(ctx.fields); }
    }

    method Fetch(rows: seq<UsageLog>) returns (logs: seq<UsageLog>)
      ensures logs == Each(rows, LogScan(LogColumns(ctx.fields)))
    {
      hide LogColumns;
      var columns := QuerySpec();
      logs := [];
      for k := 0 to |rows|
        invariant logs == Each(rows[..k], LogScan(columns))
      {
        logs := logs + [LogScan(columns)(rows[k])];
      }
      assert rows[..|rows|] == rows;
    }
  }

  class AccountGroupQuery {
    const ctx: QueryContext

    constructor (ctx: QueryContext)
      ensures this.ctx == ctx
    {
      this.ctx := ctx;
    }

    method QuerySpec() returns (columns: seq<Column>)
      ensures columns == MemberColumns(ctx.fields)
    {
      columns := if |ctx.fields| > 0 then ctx.fields else ACCOUNT_GROUP_COLUMNS;
    }

    method Fetch(rows: seq<AccountGroup>) returns (members: seq<AccountGroup>)
      ensures members == Each(rows, MemberScan(MemberColumns(ctx.fields)))
    {
      hide MemberColumns;
      var columns := QuerySpec();
      members := [];
      for k := 0 to |rows|
        invariant members == Each(rows[..k], MemberScan(columns))
      {
        members := members + [MemberScan(columns)(rows[k])];
      }
      assert rows[..|rows|] == rows;
    }
  }

  /** The id, then the other columns in the order they were asked for. */
  method SelectWithId(fields: seq<Column>) returns (columns: seq<Column>)
    ensures columns == [Id] + WithoutId(fields)
  {
    columns := [Id];
    for i := 0 to |fields|
      invariant columns == [Id] + WithoutId(fields[..i])
    {
      assert fields[..i + 1][..i] == fields[..i];
      if fields[i] != Id { columns := columns + [fields[i]]; }
    }
    assert fields[..|fields|] == fields;
  }

  class AccountQuery {
    const ctx: QueryContext
    const groups: GroupQuery?
    const proxy: ProxyQuery?
    const parent: AccountQuery?         // nested queries
    const children: AccountQuery?
    const usageLogs: UsageLogQuery?
    const accountGroups: AccountGroupQuery?

    constructor (ctx: QueryContext, groups: GroupQuery?, proxy: ProxyQuery?, parent: AccountQuery?,
                 children: AccountQuery?, usageLogs: UsageLogQuery?, accountGroups: AccountGroupQuery?)
      ensures this.ctx == ctx && this.groups == groups && this.proxy == proxy && this.parent == parent
      ensures this.children == children && this.usageLogs == usageLogs && this.accountGroups == accountGroups
    {
      this.ctx, this.groups, this.proxy, this.parent := ctx, groups, proxy, parent;
      this.children, this.usageLogs, this.accountGroups := children, usageLogs, accountGroups;
    }

    /** The selections of the nested queries that loading may extend. */
    ghost function Nested(): set<QueryContext> {
      (if children != null then {children.ctx} else {})
      + (if usageLogs != null then {usageLogs.ctx} else {})
      + (if accountGroups != null then {accountGroups.ctx} else {})
    }

    method QuerySpec() returns (columns: seq<Column>)
      ensures columns == Columns(ctx.fields, proxy != null, parent != null)
    {
      columns := ACCOUNT_COLUMNS;
      if |ctx.fields| > 0 {
        columns := SelectWithId(ctx.fields);
        if proxy != null { columns := AddOnce(columns, ProxyId); }
        if parent != null { columns := AddOnce(columns, ParentId); }
      }
    }

    /** Reads the rows into new nodes, without edges. */
    method Fetch(rows: seq<Row>) returns (nodes: seq<Account>)
      ensures |nodes| == |rows| && Distinct(nodes)
      ensures forall k | 0 <= k < |nodes| :: fresh(nodes[k]) && nodes[k].row == rows[k] && nodes[k].id == rows[k].id
      ensures proxy != null ==> forall k | 0 <= k < |nodes| :: nodes[k].proxyId == rows[k].proxyId
      ensures parent != null || ctx.fields == [] || ParentId in ctx.fields ==>
                forall k | 0 <= k < |nodes| :: nodes[k].parentId == rows[k].parentId
      ensures forall k | 0 <= k < |nodes| :: nodes[k].proxy == None && nodes[k].parent == None
    {
      hide Columns;
      var columns := QuerySpec();
      ColumnsKeep(ctx.fields, proxy != null, parent != null, ParentId);
      AllColumns(proxy != null, parent != null);
      nodes := [];
      for k := 0 to |rows|
        invariant |nodes| == k
        invariant forall j | 0 <= j < k :: fresh(nodes[j]) && nodes[j].row == rows[j] && nodes[j].id == rows[j].id
        invariant forall j | 0 <= j < k ::
                    && nodes[j].proxyId == Scan(columns, rows[j]).proxyId
                    && nodes[j].parentId == Scan(columns, rows[j]).parentId
        invariant forall j | 0 <= j < k :: nodes[j].proxy == None && nodes[j].parent == None
        invariant forall i, j | 0 <= i < j < k :: nodes[i] != nodes[j]
      {
        var node := new Account(Scan(columns, rows[k]), rows[k]);
        nodes := nodes + [node];
      }
    }

    /** All accounts of the rows with the edges that were asked for; whether the loaders raise no error. */
    method SqlAll(rows: seq<Row>, reply: Reply) returns (nodes: seq<Account>, ok: bool)
      requires rows != [] ==> forall k | 0 <= k < |reply.joins| :: reply.joins[k].account in RowIds(rows)
      modifies Nested()
      ensures ok <==> rows == [] || Answered(this, rows, reply)
      ensures ok ==> |nodes| == |rows| && (rows != [] ==> Loaded(this, nodes, rows, reply))
      ensures forall k | 0 <= k < |nodes| :: fresh(nodes[k])
    {
      hide Distinct, Answered, Loaded, RowIds, RowProxies, RowParents, Ids;
      nodes := Fetch(rows);
      ok := true;
      if |nodes| == 0 {
        return;
      }
      KeysRead(this, nodes, rows);
      ok := LoadEdges(nodes, rows, reply);
    }

    method LoadEdges(nodes: seq<Account>, rows: seq<Row>, reply: Reply) returns (ok: bool)
      requires Distinct(nodes) && |nodes| == |rows| && Ids(nodes) == RowIds(rows)
      requires proxy != null ==> ProxyKeys(nodes) == RowProxies(rows)
      requires parent != null ==> ParentKeys(nodes) == RowParents(rows)
      requires forall k | 0 <= k < |nodes| :: nodes[k].proxy == None && nodes[k].parent == None
      requires forall k | 0 <= k < |reply.joins| :: reply.joins[k].account in RowIds(rows)
      modifies nodes, Nested()
      ensures ok <==> Answered(this, rows, reply)
      ensures ok ==> Loaded(this, nodes, rows, reply)
    {
      hide GroupsLoaded, ProxyLoaded, ParentLoaded, ManyLoaded, ManyAnswered;
      hide Distinct, Honours, Answers, RowIds, RowProxies, RowParents, Ids, ProxyKeys, ParentKeys;
      ok := true;
      if groups != null { FetchGroups(nodes, rows, reply.joins); }
      if proxy != null {
        ok := FetchProxies(nodes, rows, reply.proxies);
        if !ok {
          return;
        }
      }
      if parent != null {
        ok := FetchParents(nodes, rows, reply.parents);
        if !ok {
          return;
        }
      }
      ok := LoadMany(nodes, rows, reply);
    }

    method LoadMany(nodes: seq<Account>, rows: seq<Row>, reply: Reply) returns (ok: bool)
      requires Distinct(nodes) && |nodes| == |rows| && Ids(nodes) == RowIds(rows)
      modifies nodes`children, nodes`usageLogs, nodes`accountGroups, Nested()
      ensures ok <==> ManyAnswered(this, rows, reply)
      ensures ok ==> ManyLoaded(this, nodes, rows, reply)
    {
      hide ChildrenLoaded, UsageLogsLoaded, AccountGroupsLoaded, Distinct, Honours, RowIds, Ids, MemberColumns;
      ok := true;
      if children != null {
        ok := FetchChildren(nodes, rows, reply.children);
        if !ok {
          return;
        }
      }
      if usageLogs != null {
        ok := FetchUsageLogs(nodes, rows, reply.usageLogs);
        if !ok {
          return;
        }
      }
      if accountGroups != null {
        ok := FetchAccountGroups(nodes, rows, reply.accountGroups);
      }
    }

    method FetchGroups(nodes: seq<Account>, rows: seq<Row>, joins: seq<JoinRow>)
      requires groups != null && Distinct(nodes) && |nodes| == |rows| && Ids(nodes) == RowIds(rows)
      requires forall k | 0 <= k < |joins| :: joins[k].account in RowIds(rows)
      modifies nodes`groups
      ensures GroupsLoaded(nodes, rows, joins, GroupColumns(groups.fields))
    {
      hide LastOf, GroupsOf, GroupColumns, GroupScan, Each;
      ghost var scan := GroupScan(GroupColumns(groups.fields));
      var found, keys := groups.Fetch(joins);
      GroupIdRead(groups.fields);
      var ok := LoadGroups(nodes, found);
      forall k | 0 <= k < |nodes|
        ensures Ids(nodes)[k] == RowIds(rows)[k]
        ensures GroupsOf(found, rows[k].id) == Each(GroupsOf(joins, rows[k].id), scan)
      {
        ScanGroups(joins, scan, rows[k].id);
      }
    }

    method FetchProxies(nodes: seq<Account>, rows: seq<Row>, stored: seq<Proxy>) returns (ok: bool)
      requires proxy != null && Distinct(nodes) && |nodes| == |rows| && ProxyKeys(nodes) == RowProxies(rows)
      requires forall k | 0 <= k < |nodes| :: nodes[k].proxy == None
      modifies nodes`proxy
      ensures ok <==> Answers(RowProxies(rows), stored, ProxyRef)
      ensures ok ==> ProxyLoaded(nodes, rows, stored, ProxyColumns(proxy.fields))
    {
      hide Found, Answers, ProxyColumns, ProxyScan, Each;
      ghost var scan := ProxyScan(ProxyColumns(proxy.fields));
      var proxies := proxy.Fetch(stored);
      ProxyIdRead(proxy.fields);
      ok := LoadProxy(nodes, proxies);
      EachAnswers(RowProxies(rows), stored, scan);
      forall k | 0 <= k < |nodes|
        ensures ProxyKeys(nodes)[k] == RowProxies(rows)[k] == rows[k].proxyId
        ensures Found(rows[k].proxyId, proxies, ProxyRef, None)
             == Read(Found(rows[k].proxyId, stored, ProxyRef, None), scan)
      {
        FoundEach(rows[k].proxyId, stored, scan);
      }
    }

    method FetchParents(nodes: seq<Account>, rows: seq<Row>, found: seq<Row>) returns (ok: bool)
      requires parent != null && Distinct(nodes) && |nodes| == |rows| && ParentKeys(nodes) == RowParents(rows)
      requires forall k | 0 <= k < |nodes| :: nodes[k].parent == None
      modifies nodes`parent
      ensures ok <==> Answers(RowParents(rows), found, RowRef)
      ensures ok ==> ParentLoaded(nodes, rows, found)
    {
      hide Columns, Found, DistinctKeys;
      var parents := parent.Fetch(found);
      ok := LoadParent(nodes, parents);
      assert RowsOf(parents) == found;
      forall k | 0 <= k < |nodes|
        ensures RowOf(Found(rows[k].parentId, parents, AccountRef, None))
             == Found(rows[k].parentId, found, RowRef, None)
      {
        FoundRow(rows[k].parentId, parents);
      }
      assert forall k | 0 <= k < |nodes| :: ParentKeys(nodes)[k] == RowParents(rows)[k] == rows[k].parentId;
    }

    /** The key column is added to the nested query's selection unless it selects every column. */
    method FetchChildren(nodes: seq<Account>, rows: seq<Row>, found: seq<Row>) returns (ok: bool)
      requires children != null && Distinct(nodes) && |nodes| == |rows| && Ids(nodes) == RowIds(rows)
      modifies nodes`children, children.ctx
      ensures ok <==> Honours(RowIds(rows), found, RowParent)
      ensures ok ==> ChildrenLoaded(nodes, rows, found)
    {
      hide Columns, LastOf, Mine;
      children.ctx.NeedKey(ParentId);
      var kids := children.Fetch(found);
      ok := LoadChildren(nodes, kids);
      assert RowsOf(kids) == found;
      forall k | 0 <= k < |nodes|
        ensures RowsOf(Share(RowIds(rows), kids, ChildKey, k)) == Share(RowIds(rows), found, RowParent, k)
      {
        MineRows(kids, RowIds(rows)[k]);
      }
    }

    method FetchUsageLogs(nodes: seq<Account>, rows: seq<Row>, stored: seq<UsageLog>) returns (ok: bool)
      requires usageLogs != null && Distinct(nodes) && |nodes| == |rows| && Ids(nodes) == RowIds(rows)
      modifies nodes`usageLogs, usageLogs.ctx
      ensures ok <==> Honours(RowIds(rows), stored, LogKey)
      ensures ok ==> UsageLogsLoaded(nodes, rows, stored)
    {
      hide Share;
      usageLogs.ctx.NeedKey(AccountId);
      var logs := usageLogs.Fetch(stored);
      LogsRead(usageLogs.ctx.fields, stored);
      ok := LoadUsageLogs(nodes, logs);
    }

    method FetchAccountGroups(nodes: seq<Account>, rows: seq<Row>, stored: seq<AccountGroup>) returns (ok: bool)
      requires accountGroups != null && Distinct(nodes) && |nodes| == |rows| && Ids(nodes) == RowIds(rows)
      modifies nodes`accountGroups, accountGroups.ctx
      ensures ok <==> Honours(RowIds(rows), stored, MemberKey)
      ensures ok ==> AccountGroupsLoaded(nodes, rows, stored, MemberColumns(accountGroups.ctx.fields))
    {
      hide Share, Honours, Each, MemberScan;
      accountGroups.ctx.NeedKey(AccountId);
      var members := accountGroups.Fetch(stored);
      ghost var scan := MemberScan(MemberColumns(accountGroups.ctx.fields));
      MemberKeyRead(accountGroups.ctx.fields);
      ok := LoadAccountGroups(nodes, members);
      EachHonours(RowIds(rows), stored, MemberKey, scan);
      forall k | 0 <= k < |nodes| { EachShare(RowIds(rows), stored, MemberKey, scan, k); }
    }
  }

  lemma KeysRead(q: AccountQuery, nodes: seq<Account>, rows: seq<Row>)
    requires |nodes| == |rows| && forall k | 0 <= k < |nodes| :: nodes[k].id == rows[k].id
    requires q.proxy != null ==> forall k | 0 <= k < |nodes| :: nodes[k].proxyId == rows[k].proxyId
    requires q.parent != null ==> forall k | 0 <= k < |nodes| :: nodes[k].parentId == rows[k].parentId
    ensures Ids(nodes) == RowIds(rows)
    ensures q.proxy != null ==> ProxyKeys(nodes) == RowProxies(rows)
    ensures q.parent != null ==> ParentKeys(nodes) == RowParents(rows)
  {
  }

  function RowProxies(rows: seq<Row>): (r: seq<Option<int>>)
    ensures |r| == |rows|
  {
    seq(|rows|, k requires 0 <= k < |rows| => rows[k].proxyId)
  }

  function RowParents(rows: seq<Row>): (r: seq<Option<int>>)
    ensures |r| == |rows|
  {
    seq(|rows|, k requires 0 <= k < |rows| => rows[k].parentId)
  }

  /** Every query that is sent returns only rows that satisfy its predicate. */
  ghost predicate Answered(q: AccountQuery, rows: seq<Row>, reply: Reply) {
    && (q.proxy != null ==> Answers(RowProxies(rows), reply.proxies, ProxyRef))
    && (q.parent != null ==> Answers(RowParents(rows), reply.parents, RowRef))
    && ManyAnswered(q, rows, reply)
  }

  ghost predicate ManyAnswered(q: AccountQuery, rows: seq<Row>, reply: Reply) {
    && (q.children != null ==> Honours(RowIds(rows), reply.children, RowParent))
    && (q.usageLogs != null ==> Honours(RowIds(rows), reply.usageLogs, LogKey))
    && (q.accountGroups != null ==> Honours(RowIds(rows), reply.accountGroups, MemberKey))
  }

  lemma AllColumns(proxy: bool, parent: bool)
    ensures ParentId in Columns([], proxy, parent)
  {
    assert ACCOUNT_COLUMNS[30] == ParentId;
  }
}
