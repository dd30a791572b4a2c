/**
 * Mandatory query scoping: what a query is turned into before it runs, and what
 * that keeps apart (packages/db/src/tenancy.ts).
 */
module Tenancy {
  import opened Prelude

  // ---------------------------------------------------------------------------
  // Rows, filters and queries
  // ---------------------------------------------------------------------------

  /** A row; a model may let its tenant be empty. */
  datatype Row = Row(id: string, tenantId: Option<string>, fields: map<string, string>)

  /** A `where`: the caller's own top-level conditions, and what stands under `AND`. */
  datatype Where = Where(own: Row -> bool, conj: Conjunction)

  datatype Conjunction = Absent | One(where: Where) | Many(wheres: seq<Where>)

  predicate Matches(w: Where, row: Row) {
    w.own(row) &&
    match w.conj
    case Absent => true
    case One(inner) => Matches(inner, row)
    case Many(inner) => forall k :: 0 <= k < |inner| ==> Matches(inner[k], row)
  }

  /** A caller may pass no `where` at all. */
  predicate Asked(where: Option<Where>, row: Row) {
    where.Some? ==> Matches(where.value, row)
  }

  /** The tenant column in a write: a string as it is, null, or as an operation on the column. */
  datatype Column = Unset | Text(tenantId: string) | Null | SetTo(value: Option<string>)

  /** The tenant relation in a write. */
  datatype Relation = NoRelation | Connect(tenantId: string) | Disconnect

  /** What a write sets: the tenant by its column or its relation, and other columns. */
  datatype RowData = RowData(id: string, column: Column, relation: Relation, fields: map<string, string>) {
    /** The tenant that is looked at: a string in the column, or else the one connected to. */
    function Declared(): Option<string> {
      if column.Text? then Some(column.tenantId) else if relation.Connect? then Some(relation.tenantId) else None
    }
  }

  /** A `data`, `create` or `update` payload; an array may hold entries that are not objects. */
  datatype Payload = NoPayload | OneRow(row: RowData) | Rows(rows: seq<Option<RowData>>) {
    function Entries(): seq<Option<RowData>> {
      match this
      case NoPayload => []
      case OneRow(row) => [Some(row)]
      case Rows(rows) => rows
    }
  }

  datatype Args = Args(where: Option<Where>, data: Payload, create: Payload, update: Payload)

  datatype Operation =
    | FindUnique | FindUniqueOrThrow | FindFirst | FindFirstOrThrow | FindMany
    | Count | Aggregate | GroupBy
    | Update | UpdateMany | Upsert | Delete | DeleteMany
    | Create | CreateMany | CreateManyAndReturn
    | OtherOperation

  predicate Filtered(op: Operation) {
    op in {FindUnique, FindUniqueOrThrow, FindFirst, FindFirstOrThrow, FindMany, Count, Aggregate, GroupBy,
           UpdateMany, DeleteMany, Update, Delete, Upsert}
  }

  predicate Writing(op: Operation) {
    op in {Create, CreateMany, CreateManyAndReturn, Update, UpdateMany, Upsert}
  }

  /** Whether a model has a tenant column to check on writes, and whether that may be empty. */
  datatype Tenanted = NoColumn | Required | Optional

  /** How a model is scoped: not at all, or by a filter. */
  datatype Model = Unscoped | ScopedBy(filter: seq<string> -> Where, tenanted: Tenanted)

  predicate Within(tenantId: Option<string>, ids: seq<string>) {
    tenantId.Some? && tenantId.value in ids
  }

  /** The plain rule, which most models have: the row's own tenant is one of those given. */
  function PlainFilter(ids: seq<string>): Where {
    Where((row: Row) => Within(row.tenantId, ids), Absent)
  }

  ghost predicate Plain(model: Model) {
    model.ScopedBy? && !model.tenanted.NoColumn? && forall ids, row ::
      Matches(model.filter(ids), row) <==> Within(row.tenantId, ids)
  }

  lemma PlainFilterIsPlain(tenanted: Tenanted)
    requires !tenanted.NoColumn?
    ensures Plain(ScopedBy(PlainFilter, tenanted))
  {
  }

  // ---------------------------------------------------------------------------
  // The tenancy of a request
  // ---------------------------------------------------------------------------

  datatype Scope = AllTenants | Tenants(ids: seq<string>)

  datatype TenancyState = Scoped(scope: Scope) | System(reason: string) | Unresolved

  datatype Refusal = MissingScope | CrossTenantWrite(tenantId: string)

  /** Installed when the request begins, filled in once the caller is known. */
  class Holder {
    var state: TenancyState

    constructor ()
      ensures state == Unresolved
    {
      state := Unresolved;
    }
  }

  method SetTenantScope(holder: Holder?, scope: Scope)
    modifies if holder == null then {} else {holder}
    ensures holder != null ==> holder.state == Scoped(scope)
  {
    if holder != null {
      holder.state := Scoped(scope);
    }
  }

  // ---------------------------------------------------------------------------
  // Rewriting a query
  // ---------------------------------------------------------------------------

  /** The scope goes under `AND`, beside whatever is there; the caller's own keys stay where they are. */
  function WithFilter(where: Option<Where>, filter: Where): Where {
    var base := if where.Some? then where.value else Where(_ => true, Absent);
    base.(conj :=
      match base.conj
      case Absent => Many([filter])
      case One(existing) => Many([existing, filter])
      case Many(existing) => Many(existing + [filter]))
  }

  predicate Writable(entry: Option<RowData>, ids: seq<string>) {
    entry.Some? && entry.value.Declared().Some? ==> entry.value.Declared().value in ids
  }

  /** The first tenant out of scope that the entries would put a row in. */
  function FirstOutside(entries: seq<Option<RowData>>, ids: seq<string>): (r: Option<Refusal>)
    ensures r.None? <==> forall k :: 0 <= k < |entries| ==> Writable(entries[k], ids)
  {
    if entries == [] then None
    else if !Writable(entries[0], ids) then Some(CrossTenantWrite(entries[0].value.Declared().value))
    else FirstOutside(entries[1..], ids)
  }

  function Unwritable(model: Model, payload: Payload, scope: Scope): Option<Refusal> {
    if scope.AllTenants? || model.Unscoped? || model.tenanted.NoColumn? then None
    else FirstOutside(payload.Entries(), scope.ids)
  }

  /** Looks at the rows one by one, by column first and by connection when there is no column. */
  method AssertWritableTenant(model: Model, payload: Payload, scope: Scope) returns (refusal: Option<Refusal>)
    ensures refusal == Unwritable(model, payload, scope)
  {
    if scope.AllTenants? || payload.NoPayload? || model.Unscoped? || model.tenanted.NoColumn? {
      return None;
    }
    var entries := payload.Entries();
    for k := 0 to |entries|
      invariant FirstOutside(entries, scope.ids) == FirstOutside(entries[k..], scope.ids)
    {
      assert entries[k..][1..] == entries[k + 1..];
      var entry := entries[k];
      if entry.None? {
        continue;
      }
      if entry.value.column.Text? {
        if entry.value.column.tenantId !in scope.ids {
          return Some(CrossTenantWrite(entry.value.column.tenantId));
        }
        continue;
      }
      var relation := entry.value.relation;
      if relation.Connect? && relation.tenantId !in scope.ids {
        return Some(CrossTenantWrite(relation.tenantId));
      }
    }
    return None;
  }

  /** The arguments the query runs with, or why it does not run. */
  function ScopedArgs(model: Model, op: Operation, args: Args, state: TenancyState): Result<Args, Refusal> {
    if model.Unscoped? then Ok(args)
    else
      match state
      case Unresolved => Err(MissingScope)
      case System(_) => Ok(args)
      case Scoped(scope) =>
        var inData := if Writing(op) then Unwritable(model, args.data, scope) else None;
        var inCreate := if Writing(op) then Unwritable(model, args.create, scope) else None;
        var inUpdate := if Writing(op) then Unwritable(model, args.update, scope) else None;
        if inData.Some? then Err(inData.value)
        else if inCreate.Some? then Err(inCreate.value)
        else if inUpdate.Some? then Err(inUpdate.value)
        else if scope.AllTenants? || !Filtered(op) then Ok(args)
        else Ok(args.(where := Some(WithFilter(args.where, model.filter(scope.ids)))))
  }

  method ScopeQueryArgs(holder: Holder?, model: Model, op: Operation, args: Args) returns (r: Result<Args, Refusal>)
    ensures r == ScopedArgs(model, op, args, if holder == null then Unresolved else holder.state)
    ensures model.ScopedBy? && (holder == null || holder.state.Unresolved?) ==> r.Err?
  {
    if model.Unscoped? {
      return Ok(args);
    }
    if holder == null || holder.state.Unresolved? {
      return Err(MissingScope);
    }
    if holder.state.System? {
      return Ok(args);
    }
    var scope := holder.state.scope;
    if Writing(op) {
      var refusal := AssertWritableTenant(model, args.data, scope);
      if refusal.Some? {
        return Err(refusal.value);
      }
      refusal := AssertWritableTenant(model, args.create, scope);
      if refusal.Some? {
        return Err(refusal.value);
      }
      refusal := AssertWritableTenant(model, args.update, scope);
      if refusal.Some? {
        return Err(refusal.value);
      }
    }
    if scope.AllTenants? || !Filtered(op) {
      return Ok(args);
    }
    return Ok(args.(where := Some(WithFilter(args.where, model.filter(scope.ids)))));
  }

  // ---------------------------------------------------------------------------
  // What a filter means
  // ---------------------------------------------------------------------------

  /** Whatever the caller put under `AND`, the result is the caller's condition and the filter. */
  lemma FilterIsConjunction(where: Option<Where>, filter: Where, row: Row)
    ensures Matches(WithFilter(where, filter), row) <==> Asked(where, row) && Matches(filter, row)
    ensures where.Some? ==> WithFilter(where, filter).own == where.value.own
  {
    if where.Some? {
      match where.value.conj {
        case Absent =>
          AllMatch([], filter, row);
        case One(existing) =>
          AllMatch([existing], filter, row);
          assert [existing] + [filter] == [existing, filter];
          assert [existing][0] == existing;
        case Many(existing) =>
          AllMatch(existing, filter, row);
      }
    } else {
      AllMatch([], filter, row);
    }
  }

  lemma AllMatch(existing: seq<Where>, filter: Where, row: Row)
    ensures Matches(Where(_ => true, Many(existing + [filter])), row)
       <==> (forall k :: 0 <= k < |existing| ==> Matches(existing[k], row)) && Matches(filter, row)
  {
    var all := existing + [filter];
    assert all[|existing|] == filter;
    assert forall k :: 0 <= k < |existing| ==> all[k] == existing[k];
  }

  // ---------------------------------------------------------------------------
  // Running a query
  // ---------------------------------------------------------------------------

  type Table = map<string, Row>

  /** The tenant a created row gets, if the database takes it: by its column or its relation and not by both. */
  function TenantCreated(tenanted: Tenanted, data: RowData): Option<Option<string>> {
    match (data.column, data.relation)
    case (Text(t), NoRelation) => Some(Some(t))
    case (Unset, Connect(t)) => Some(Some(t))
    case (Null, NoRelation) => if tenanted.Optional? then Some(None) else None
    case (Unset, NoRelation) => if tenanted.Optional? then Some(None) else None
    case _ => None
  }

  /** The tenant an updated row has after, if the database takes it. */
  function TenantUpdated(tenanted: Tenanted, data: RowData, now: Option<string>): Option<Option<string>> {
    match (data.column, data.relation)
    case (Text(t), NoRelation) => Some(Some(t))
    case (SetTo(Some(t)), NoRelation) => Some(Some(t))
    case (SetTo(None), NoRelation) => if tenanted.Optional? then Some(None) else None
    case (Null, NoRelation) => if tenanted.Optional? then Some(None) else None
    case (Unset, Connect(t)) => Some(Some(t))
    case (Unset, Disconnect) => if tenanted.Optional? then Some(None) else None
    case (Unset, NoRelation) => Some(now)
    case _ => None
  }

  /** A row with what an update sets. */
  function Written(tenanted: Tenanted, row: Row, data: RowData): Row {
    var tenant := TenantUpdated(tenanted, data, row.tenantId);
    Row(row.id, if tenant.Some? then tenant.value else row.tenantId, row.fields + data.fields)
  }

  /** The rows a query is about: all that match, or one of them. */
  ghost predicate Picked(table: Table, where: Option<Where>, one: bool, ids: set<string>) {
    var matching := set id | id in table && Asked(where, table[id]);
    if one then ids <= matching && |ids| <= 1 && (matching != {} ==> ids != {}) else ids == matching
  }

  predicate ForOne(op: Operation) {
    op in {FindUnique, FindUniqueOrThrow, FindFirst, FindFirstOrThrow, Update, Upsert, Delete}
  }

  predicate Creates(tenanted: Tenanted, entry: Option<RowData>) {
    entry.Some? && TenantCreated(tenanted, entry.value).Some?
  }

  /** Every entry is one the database takes, under an id the table does not have, and no two the same. */
  ghost predicate Creatable(tenanted: Tenanted, table: Table, entries: seq<Option<RowData>>) {
    && (forall k :: 0 <= k < |entries| ==> Creates(tenanted, entries[k]) && entries[k].value.id !in table)
    && (forall i, j ::
        0 <= i < j < |entries| && entries[i].Some? && entries[j].Some? ==> entries[i].value.id != entries[j].value.id)
  }

  function WithRows(tenanted: Tenanted, table: Table, entries: seq<Option<RowData>>): Table
    requires forall k :: 0 <= k < |entries| ==> Creates(tenanted, entries[k])
  {
    if entries == [] then table
    else
      assert Creates(tenanted, entries[|entries| - 1]);
      var rest, data := WithRows(tenanted, table, entries[..|entries| - 1]), entries[|entries| - 1].value;
      rest[data.id := Row(data.id, TenantCreated(tenanted, data).value, data.fields)]
  }

  /** The database may refuse a write, which then changes nothing. */
  ghost predicate Created(tenanted: Tenanted, before: Table, payload: Payload, after: Table) {
    after == before
      || (Creatable(tenanted, before, payload.Entries()) && after == WithRows(tenanted, before, payload.Entries()))
  }

  ghost predicate Changed(tenanted: Tenanted, before: Table, ids: set<string>, payload: Payload, after: Table) {
    after == before
    || (payload.OneRow? && ids <= before.Keys
        && (forall id :: id in ids ==> TenantUpdated(tenanted, payload.row, before[id].tenantId).Some?)
        && after == map id | id in before ::
           if id in ids then Written(tenanted, before[id], payload.row) else before[id])
  }

  /** What running an operation does to a table, and which rows it reads. */
  ghost predicate Runs(tenanted: Tenanted, op: Operation, args: Args, before: Table, after: Table, read: set<string>) {
    match op
    case Create => read == {} && Created(tenanted, before, args.data, after)
    case CreateMany => read == {} && Created(tenanted, before, args.data, after)
    case CreateManyAndReturn => read == {} && Created(tenanted, before, args.data, after)
    case Update => Picked(before, args.where, true, read) && Changed(tenanted, before, read, args.data, after)
    case UpdateMany => Picked(before, args.where, false, read) && Changed(tenanted, before, read, args.data, after)
    case Upsert =>
      && Picked(before, args.where, true, read)
      && (if read == {} then Created(tenanted, before, args.create, after)
          else Changed(tenanted, before, read, args.update, after))
    case Delete => Picked(before, args.where, true, read) && (after == before || after == before - read)
    case DeleteMany => Picked(before, args.where, false, read) && (after == before || after == before - read)
    case OtherOperation => false
    case _ => Picked(before, args.where, ForOne(op), read) && after == before
  }

  // ---------------------------------------------------------------------------
  // Isolation
  // ---------------------------------------------------------------------------

  /** The rows of the tenants in scope. */
  ghost function Inside(table: Table, ids: seq<string>): Table {
    map id | id in table && Within(table[id].tenantId, ids) :: table[id]
  }

  /** The rows of other tenants, or of none. */
  ghost function Outside(table: Table, ids: seq<string>): Table {
    map id | id in table && !Within(table[id].tenantId, ids) :: table[id]
  }

  /** The entry would create a row out of scope. */
  predicate CreatesOutside(tenanted: Tenanted, entry: Option<RowData>, ids: seq<string>) {
    Creates(tenanted, entry) && !Within(TenantCreated(tenanted, entry.value).value, ids)
  }

  /** The entry would take a row of the scope out of it. */
  predicate MovesOutside(tenanted: Tenanted, data: RowData, ids: seq<string>) {
    match (data.column, data.relation)
    case (Unset, NoRelation) => false
    case _ =>
      var tenant := TenantUpdated(tenanted, data, None);
      tenant.Some? && !Within(tenant.value, ids)
  }

  /** Of what is let through, this is what puts a row out of scope: naming no tenant, or setting one by an operation. */
  lemma WaysOut(tenanted: Tenanted, data: RowData, ids: seq<string>)
    requires Writable(Some(data), ids)
    ensures CreatesOutside(tenanted, Some(data), ids) <==>
      tenanted.Optional? && data.relation.NoRelation? && (data.column.Unset? || data.column.Null?)
    ensures MovesOutside(tenanted, data, ids) <==>
      if data.column.Unset? then tenanted.Optional? && data.relation.Disconnect?
      else data.relation.NoRelation? &&
           match data.column
           case SetTo(Some(t)) => t !in ids
           case Text(_) => false
           case _ => tenanted.Optional?
  {
  }

  ghost predicate SomeOutside(tenanted: Tenanted, payload: Payload, ids: seq<string>) {
    exists k :: 0 <= k < |payload.Entries()| && CreatesOutside(tenanted, payload.Entries()[k], ids)
  }

  /** The operation's payload would put a row out of scope. */
  ghost predicate Escapes(tenanted: Tenanted, op: Operation, args: Args, ids: seq<string>, read: set<string>) {
    match op
    case Create => SomeOutside(tenanted, args.data, ids)
    case CreateMany => SomeOutside(tenanted, args.data, ids)
    case CreateManyAndReturn => SomeOutside(tenanted, args.data, ids)
    case Update => args.data.OneRow? && MovesOutside(tenanted, args.data.row, ids)
    case UpdateMany => args.data.OneRow? && MovesOutside(tenanted, args.data.row, ids)
    case Upsert =>
      if read == {} then SomeOutside(tenanted, args.create, ids)
      else args.update.OneRow? && MovesOutside(tenanted, args.update.row, ids)
    case _ => false
  }

  /** Rows created under ids the table did not have leave its own rows as they were. */
  lemma {:induction false} CreatedRows(tenanted: Tenanted, before: Table, entries: seq<Option<RowData>>)
    requires forall k :: 0 <= k < |entries| ==> Creates(tenanted, entries[k]) && entries[k].value.id !in before
    ensures var after := WithRows(tenanted, before, entries);
            forall id :: id in before ==> id in after && after[id] == before[id]
  {
    if entries != [] {
      CreatedRows(tenanted, before, entries[..|entries| - 1]);
    }
  }

  lemma {:induction false} CreatedInside(tenanted: Tenanted, before: Table, entries: seq<Option<RowData>>,
                                         ids: seq<string>)
    requires forall k :: 0 <= k < |entries| ==> Creates(tenanted, entries[k]) && entries[k].value.id !in before
    requires forall k :: 0 <= k < |entries| ==> !CreatesOutside(tenanted, entries[k], ids)
    ensures var after := WithRows(tenanted, before, entries);
            && Inside(after, ids) == WithRows(tenanted, Inside(before, ids), entries)
            && Outside(after, ids) == Outside(before, ids)
  {
    if entries != [] {
      var n := |entries| - 1;
      CreatedInside(tenanted, before, entries[..n], ids);
      CreatedRows(tenanted, before, entries[..n]);
      assert Creates(tenanted, entries[n]) && !CreatesOutside(tenanted, entries[n], ids);
      InsideOfMore(WithRows(tenanted, before, entries[..n]), before, entries[n].value.id,
                   Row(entries[n].value.id, TenantCreated(tenanted, entries[n].value).value, entries[n].value.fields),
                   ids);
    }
  }

  lemma InsideOfMore(table: Table, before: Table, id: string, row: Row, ids: seq<string>)
    requires Within(row.tenantId, ids) && id !in before && Outside(table, ids) == Outside(before, ids)
    ensures Inside(table[id := row], ids) == Inside(table, ids)[id := row]
    ensures Outside(table[id := row], ids) == Outside(before, ids)
  {
    assert id !in Outside(table, ids);
  }

  /** Different ids keep each created row as it was created. */
  lemma {:induction false} CreatedStays(tenanted: Tenanted, before: Table, entries: seq<Option<RowData>>, k: nat)
    requires Creatable(tenanted, before, entries) && k < |entries|
    ensures var after, data := WithRows(tenanted, before, entries), entries[k].value;
            data.id in after && after[data.id] == Row(data.id, TenantCreated(tenanted, data).value, data.fields)
  {
    if k < |entries| - 1 {
      CreatedStays(tenanted, before, entries[..|entries| - 1], k);
    }
  }

  // ---------------------------------------------------------------------------
  // One query
  // ---------------------------------------------------------------------------

  /** Rows out of scope that were there stay as they were. */
  ghost predicate Kept(before: Table, after: Table, ids: seq<string>) {
    forall id ::
      id in Outside(before, ids) ==> id in Outside(after, ids) && Outside(after, ids)[id] == Outside(before, ids)[id]
  }

  /** A create leaves what is out of scope as it was, and exactly when it escapes adds to it. */
  lemma CreateIsolated(tenanted: Tenanted, before: Table, payload: Payload, after: Table, ids: seq<string>)
    requires Created(tenanted, before, payload, after)
    ensures Kept(before, after, ids)
    ensures !SomeOutside(tenanted, payload, ids) ==>
      Created(tenanted, Inside(before, ids), payload, Inside(after, ids)) && Outside(after, ids) == Outside(before, ids)
    ensures SomeOutside(tenanted, payload, ids) && after != before ==> Outside(after, ids) != Outside(before, ids)
  {
    if after != before {
      var entries := payload.Entries();
      CreatedRows(tenanted, before, entries);
      if !SomeOutside(tenanted, payload, ids) {
        CreatedInside(tenanted, before, entries, ids);
      } else {
        var k :| 0 <= k < |entries| && CreatesOutside(tenanted, entries[k], ids);
        CreatedStays(tenanted, before, entries, k);
        assert entries[k].value.id in Outside(after, ids) && entries[k].value.id !in Outside(before, ids);
      }
    }
  }

  lemma WrittenWithin(tenanted: Tenanted, row: Row, data: RowData, ids: seq<string>)
    requires Within(row.tenantId, ids) && TenantUpdated(tenanted, data, row.tenantId).Some?
    ensures Within(Written(tenanted, row, data).tenantId, ids) <==> !MovesOutside(tenanted, data, ids)
  {
  }

  lemma ChangeIsolated(tenanted: Tenanted, before: Table, read: set<string>, payload: Payload, after: Table,
                       ids: seq<string>)
    requires Changed(tenanted, before, read, payload, after) && forall id ::
      id in read ==> id in before && Within(before[id].tenantId, ids)
    requires payload.OneRow? ==> Writable(Some(payload.row), ids)
    ensures Kept(before, after, ids)
    ensures !(payload.OneRow? && MovesOutside(tenanted, payload.row, ids)) ==>
      Changed(tenanted, Inside(before, ids), read, payload, Inside(after, ids))
        && Outside(after, ids) == Outside(before, ids)
    ensures payload.OneRow? && MovesOutside(tenanted, payload.row, ids) && after != before ==>
      Outside(after, ids) != Outside(before, ids)
  {
    if after != before {
      var inside := Inside(before, ids);
      forall id | id in read
        ensures Within(Written(tenanted, before[id], payload.row).tenantId, ids)
          <==> !MovesOutside(tenanted, payload.row, ids)
      {
        WrittenWithin(tenanted, before[id], payload.row, ids);
      }
      if !MovesOutside(tenanted, payload.row, ids) {
        assert Inside(after, ids) == map id | id in inside ::
          if id in read then Written(tenanted, inside[id], payload.row) else inside[id];
      } else {
        var id :| id in read;
        assert id in Outside(after, ids) && id !in Outside(before, ids);
      }
    }
  }

  lemma DeleteIsolated(before: Table, read: set<string>, after: Table, ids: seq<string>)
    requires after == before || after == before - read
    requires forall id :: id in read ==> id in before && Within(before[id].tenantId, ids)
    ensures Inside(after, ids) == Inside(before, ids) || Inside(after, ids) == Inside(before, ids) - read
    ensures Outside(after, ids) == Outside(before, ids)
  {
    if after == before - read {
      assert Inside(after, ids) == Inside(before, ids) - read;
    }
  }

  /** With the filter, a query is about the caller's rows among those in scope. */
  lemma PickIsolated(before: Table, where: Option<Where>, filter: Where, one: bool, read: set<string>, ids: seq<string>)
    requires forall row :: Matches(filter, row) <==> Within(row.tenantId, ids)
    requires Picked(before, Some(WithFilter(where, filter)), one, read)
    ensures Picked(Inside(before, ids), where, one, read)
    ensures forall id :: id in read ==> id in before && Within(before[id].tenantId, ids)
  {
    var inside := Inside(before, ids);
    forall id | id in before
      ensures Asked(Some(WithFilter(where, filter)), before[id]) <==> id in inside && Asked(where, inside[id])
    {
      FilterIsConjunction(where, filter, before[id]);
    }
    assert (set id | id in before && Asked(Some(WithFilter(where, filter)), before[id]))
        == set id | id in inside && Asked(where, inside[id]);
  }

  /** What a query that is let through does, as the four statements about it. */
  ghost predicate Isolated(tenanted: Tenanted, op: Operation, args: Args, ids: seq<string>, before: Table, after: Table,
                           read: set<string>) {
    && (forall id :: id in read ==> id in before && Within(before[id].tenantId, ids))
    && Kept(before, after, ids)
    && (Outside(after, ids) == Outside(before, ids) <==> after == before || !Escapes(tenanted, op, args, ids, read))
    && (!Escapes(tenanted, op, args, ids, read) ==>
        Runs(tenanted, op, args, Inside(before, ids), Inside(after, ids), read))
  }

  /**
   * A query of a scoped caller reads rows in scope only and leaves those out of scope as they were. It adds to them
   * exactly when its payload escapes and is carried out; and when it does not, it runs as the query it asked for
   * would run if the rows out of scope did not exist.
   */
  lemma ScopedQueryIsIsolated(model: Model, op: Operation, args: Args, ids: seq<string>, before: Table, after: Table,
                              read: set<string>)
    requires Plain(model) && ScopedArgs(model, op, args, Scoped(Tenants(ids))).Ok?
    requires Runs(model.tenanted, op, ScopedArgs(model, op, args, Scoped(Tenants(ids))).value, before, after, read)
    ensures Isolated(model.tenanted, op, args, ids, before, after, read)
  {
    if Filtered(op) {
      PickIsolated(before, args.where, model.filter(ids), ForOne(op), read, ids);
    }
    if Writing(op) {
      LetThrough(model, op, args, ids);
    }
    match op {
      case Create => CreateOperation(model.tenanted, op, args, ids, before, after, read);
      case CreateMany => CreateOperation(model.tenanted, op, args, ids, before, after, read);
      case CreateManyAndReturn => CreateOperation(model.tenanted, op, args, ids, before, after, read);
      case Update => ChangeOperation(model.tenanted, op, args, ids, before, after, read);
      case UpdateMany => ChangeOperation(model.tenanted, op, args, ids, before, after, read);
      case Upsert =>
        if read == {} {
          CreateOperation(model.tenanted, op, args, ids, before, after, read);
        } else {
          ChangeOperation(model.tenanted, op, args, ids, before, after, read);
        }
      case Delete => DeleteIsolated(before, read, after, ids);
      case DeleteMany => DeleteIsolated(before, read, after, ids);
      case _ =>
    }
  }

  lemma CreateOperation(tenanted: Tenanted, op: Operation, args: Args, ids: seq<string>, before: Table, after: Table,
                        read: set<string>)
    requires op.Create? || op.CreateMany? || op.CreateManyAndReturn?
      || (op.Upsert? && Picked(Inside(before, ids), args.where, true, read))
    requires read == {} && Created(tenanted, before, if op.Upsert? then args.create else args.data, after)
    ensures Isolated(tenanted, op, args, ids, before, after, read)
  {
    CreateIsolated(tenanted, before, if op.Upsert? then args.create else args.data, after, ids);
  }

  lemma ChangeOperation(tenanted: Tenanted, op: Operation, args: Args, ids: seq<string>, before: Table, after: Table,
                        read: set<string>)
    requires (op.Update? || op.UpdateMany? || op.Upsert?) && (op.Upsert? ==> read != {})
    requires Picked(Inside(before, ids), args.where, !op.UpdateMany?, read)
    requires forall id :: id in read ==> id in before && Within(before[id].tenantId, ids)
    requires var payload := if op.Upsert? then args.update else args.data;
             Changed(tenanted, before, read, payload, after) && (payload.OneRow? ==> Writable(Some(payload.row), ids))
    ensures Isolated(tenanted, op, args, ids, before, after, read)
  {
    ChangeIsolated(tenanted, before, read, if op.Upsert? then args.update else args.data, after, ids);
  }

  /** A write that is let through declares no tenant out of scope. */
  lemma LetThrough(model: Model, op: Operation, args: Args, ids: seq<string>)
    requires Plain(model) && ScopedArgs(model, op, args, Scoped(Tenants(ids))).Ok? && Writing(op)
    ensures args.data.OneRow? ==> Writable(Some(args.data.row), ids)
    ensures args.update.OneRow? ==> Writable(Some(args.update.row), ids)
  {
    if args.data.OneRow? {
      assert args.data.Entries()[0] == Some(args.data.row);
    }
    if args.update.OneRow? {
      assert args.update.Entries()[0] == Some(args.update.row);
    }
  }

  // ---------------------------------------------------------------------------
  // Runs of queries
  // ---------------------------------------------------------------------------

  /** A query, the state of the request it is made in, and the rows it reads. */
  datatype Query = Query(state: TenancyState, op: Operation, args: Args, read: set<string>)

  /** A query is refused, and nothing happens, or runs with the arguments it is given. */
  ghost predicate QueryStep(model: Model, q: Query, before: Table, after: Table)
    requires model.ScopedBy?
  {
    match ScopedArgs(model, q.op, q.args, q.state)
    case Err(_) => after == before && q.read == {}
    case Ok(scoped) => Runs(model.tenanted, q.op, scoped, before, after, q.read)
  }

  /** Queries one after another, each in whatever state its request has. */
  ghost predicate IsSession(model: Model, queries: seq<Query>, tables: seq<Table>)
    requires model.ScopedBy?
  {
    |tables| == |queries| + 1
    && forall k :: 0 <= k < |queries| ==> QueryStep(model, queries[k], tables[k], tables[k + 1])
  }

  /** A request in this state has no tenant but those given: it is not resolved, or its scope is among them. */
  ghost predicate Confined(state: TenancyState, ids: seq<string>) {
    match state
    case Unresolved => true
    case Scoped(Tenants(own)) => forall tenantId :: tenantId in own ==> tenantId in ids
    case _ => false
  }

  /** The query did nothing, or nothing that puts a row out of scope. */
  ghost predicate StaysIn(model: Model, ids: seq<string>, q: Query, before: Table, after: Table)
    requires model.ScopedBy?
  {
    after == before || !Escapes(model.tenanted, q.op, q.args, ids, q.read)
  }

  ghost predicate ReadsInScope(ids: seq<string>, q: Query, table: Table) {
    forall id :: id in q.read ==> id in table && Within(table[id].tenantId, ids)
  }

  /** Whatever the operation, a request whose tenants were never resolved reads nothing and changes nothing. */
  lemma UnresolvedDoesNothing(model: Model, q: Query, before: Table, after: Table)
    requires model.ScopedBy? && QueryStep(model, q, before, after) && q.state.Unresolved?
    ensures q.read == {} && after == before
  {
  }

  /** What the system asks, or someone with all tenants, runs just as it was asked. */
  lemma UnscopedRunsAsAsked(model: Model, q: Query, before: Table, after: Table)
    requires model.ScopedBy? && (q.state.System? || q.state == Scoped(AllTenants))
    ensures QueryStep(model, q, before, after) <==> Runs(model.tenanted, q.op, q.args, before, after, q.read)
  {
  }

  /** A write within a scope is a write within a wider one. */
  lemma WritableInWider(payload: Payload, own: seq<string>, ids: seq<string>)
    requires forall tenantId :: tenantId in own ==> tenantId in ids
    requires payload.OneRow? ==> Writable(Some(payload.row), own)
    ensures payload.OneRow? ==> Writable(Some(payload.row), ids)
  {
  }

  /** What a query leaves of the rows of other tenants than those given. */
  ghost predicate Separate(model: Model, ids: seq<string>, q: Query, before: Table, after: Table)
    requires model.ScopedBy?
  {
    && Kept(before, after, ids) && ReadsInScope(ids, q, before)
    && (Outside(after, ids) == Outside(before, ids) <==> StaysIn(model, ids, q, before, after))
  }

  lemma CreateSeparate(model: Model, ids: seq<string>, q: Query, before: Table, after: Table)
    requires model.ScopedBy? && q.read == {} && q.op in {Create, CreateMany, CreateManyAndReturn, Upsert}
    requires Created(model.tenanted, before, if q.op.Upsert? then q.args.create else q.args.data, after)
    ensures Separate(model, ids, q, before, after)
  {
    CreateIsolated(model.tenanted, before, if q.op.Upsert? then q.args.create else q.args.data, after, ids);
  }

  lemma ChangeSeparate(model: Model, ids: seq<string>, q: Query, before: Table, after: Table)
    requires model.ScopedBy? && q.op in {Update, UpdateMany, Upsert} && (q.op.Upsert? ==> q.read != {})
    requires ReadsInScope(ids, q, before)
    requires var payload := if q.op.Upsert? then q.args.update else q.args.data;
             && Changed(model.tenanted, before, q.read, payload, after)
             && (payload.OneRow? ==> Writable(Some(payload.row), ids))
    ensures Separate(model, ids, q, before, after)
  {
    ChangeIsolated(model.tenanted, before, q.read, if q.op.Upsert? then q.args.update else q.args.data, after, ids);
  }

  /** What the caller's own scope allows its query, told of a wider list. */
  lemma NarrowerReads(model: Model, ids: seq<string>, own: seq<string>, q: Query, before: Table, after: Table)
    requires Plain(model) && QueryStep(model, q, before, after) && q.state == Scoped(Tenants(own))
    requires forall tenantId :: tenantId in own ==> tenantId in ids
    requires ScopedArgs(model, q.op, q.args, q.state).Ok?
    ensures ReadsInScope(ids, q, before)
    ensures Writing(q.op) ==>
      && (q.args.data.OneRow? ==> Writable(Some(q.args.data.row), ids))
      && (q.args.update.OneRow? ==> Writable(Some(q.args.update.row), ids))
  {
    ScopedQueryIsIsolated(model, q.op, q.args, own, before, after, q.read);
    if Writing(q.op) {
      LetThrough(model, q.op, q.args, own);
      WritableInWider(q.args.data, own, ids);
      WritableInWider(q.args.update, own, ids);
    }
  }

  /** A query's own arguments are what its rows are created from, changed by, or removed for. */
  ghost predicate Writes(model: Model, q: Query, before: Table, after: Table)
    requires model.ScopedBy?
  {
    match q.op
    case Create => q.read == {} && Created(model.tenanted, before, q.args.data, after)
    case CreateMany => q.read == {} && Created(model.tenanted, before, q.args.data, after)
    case CreateManyAndReturn => q.read == {} && Created(model.tenanted, before, q.args.data, after)
    case Update => Changed(model.tenanted, before, q.read, q.args.data, after)
    case UpdateMany => Changed(model.tenanted, before, q.read, q.args.data, after)
    case Upsert =>
      if q.read == {} then Created(model.tenanted, before, q.args.create, after)
      else Changed(model.tenanted, before, q.read, q.args.update, after)
    case Delete => after == before || after == before - q.read
    case DeleteMany => after == before || after == before - q.read
    case _ => after == before
  }

  lemma StepWrites(model: Model, q: Query, before: Table, after: Table)
    requires model.ScopedBy? && QueryStep(model, q, before, after) && ScopedArgs(model, q.op, q.args, q.state).Ok?
    ensures Writes(model, q, before, after)
  {
  }

  lemma WritesSeparate(model: Model, ids: seq<string>, q: Query, before: Table, after: Table)
    requires model.ScopedBy? && Writes(model, q, before, after) && ReadsInScope(ids, q, before)
    requires Writing(q.op) ==>
      && (q.args.data.OneRow? ==> Writable(Some(q.args.data.row), ids))
      && (q.args.update.OneRow? ==> Writable(Some(q.args.update.row), ids))
    ensures Separate(model, ids, q, before, after)
  {
    match q.op {
      case Create => CreateSeparate(model, ids, q, before, after);
      case CreateMany => CreateSeparate(model, ids, q, before, after);
      case CreateManyAndReturn => CreateSeparate(model, ids, q, before, after);
      case Update => ChangeSeparate(model, ids, q, before, after);
      case UpdateMany => ChangeSeparate(model, ids, q, before, after);
      case Upsert =>
        if q.read == {} {
          CreateSeparate(model, ids, q, before, after);
        } else {
          ChangeSeparate(model, ids, q, before, after);
        }
      case Delete => DeleteIsolated(before, q.read, after, ids);
      case DeleteMany => DeleteIsolated(before, q.read, after, ids);
      case _ =>
    }
  }

  /** The same is so of any list of tenants that the caller's scope is among. */
  lemma ConfinedIsSeparate(model: Model, ids: seq<string>, q: Query, before: Table, after: Table)
    requires Plain(model) && QueryStep(model, q, before, after) && Confined(q.state, ids)
    ensures Separate(model, ids, q, before, after)
  {
    if ScopedArgs(model, q.op, q.args, q.state).Ok? {
      NarrowerReads(model, ids, q.state.scope.ids, q, before, after);
      StepWrites(model, q, before, after);
      WritesSeparate(model, ids, q, before, after);
    }
  }

  /** A row of another tenant than those given, or of none, is read, changed or removed. */
  ghost predicate ReachesOutside(ids: seq<string>, q: Query, before: Table, after: Table) {
    !Kept(before, after, ids) || !ReadsInScope(ids, q, before)
  }

  /**
   * In any session, whatever the states of its requests: a query that reaches outside a list of tenants was made by the
   * system, for all tenants, or for a tenant not in the list; and the first two run just as they were asked.
   */
  lemma OnlyUnscopedReachOutside(model: Model, ids: seq<string>, queries: seq<Query>, tables: seq<Table>, k: nat)
    requires Plain(model) && IsSession(model, queries, tables) && k < |queries|
    requires ReachesOutside(ids, queries[k], tables[k], tables[k + 1])
    ensures var q := queries[k];
            match q.state
            case Unresolved => false
            case Scoped(Tenants(own)) => exists tenantId :: tenantId in own && tenantId !in ids
            case _ => Runs(model.tenanted, q.op, q.args, tables[k], tables[k + 1], q.read)
  {
    var q := queries[k];
    assert QueryStep(model, q, tables[k], tables[k + 1]);
    if Confined(q.state, ids) {
      ConfinedIsSeparate(model, ids, q, tables[k], tables[k + 1]);
    }
  }

  ghost predicate AllConfined(ids: seq<string>, queries: seq<Query>, n: nat)
    requires n <= |queries|
  {
    forall k :: 0 <= k < n ==> Confined(queries[k].state, ids)
  }

  ghost predicate AllStayIn(model: Model, ids: seq<string>, queries: seq<Query>, tables: seq<Table>, n: nat)
    requires model.ScopedBy? && n <= |queries| && |tables| == |queries| + 1
  {
    forall k :: 0 <= k < n ==> StaysIn(model, ids, queries[k], tables[k], tables[k + 1])
  }

  ghost predicate AllSeparate(model: Model, ids: seq<string>, queries: seq<Query>, tables: seq<Table>, n: nat)
    requires model.ScopedBy? && n <= |queries| && |tables| == |queries| + 1
  {
    forall k :: 0 <= k < n ==> Separate(model, ids, queries[k], tables[k], tables[k + 1])
  }

  lemma {:induction false} SeparateThroughout(model: Model, ids: seq<string>, queries: seq<Query>, tables: seq<Table>,
                                              n: nat)
    requires model.ScopedBy? && n <= |queries| && |tables| == |queries| + 1
    requires AllSeparate(model, ids, queries, tables, n)
    ensures Kept(tables[0], tables[n], ids)
    ensures Outside(tables[n], ids) == Outside(tables[0], ids) <==> AllStayIn(model, ids, queries, tables, n)
  {
    if n > 0 {
      SeparateThroughout(model, ids, queries, tables, n - 1);
      assert Separate(model, ids, queries[n - 1], tables[n - 1], tables[n]);
      OutsideGrows(tables[0], tables[n - 1], tables[n], ids);
      AllButLast(model, ids, queries, tables, n - 1);
    }
  }

  /**
   * Over any session whose requests, resolved or not, have no tenant but those given, no row of another is read,
   * changed or removed; and none is added exactly when every query of it stays in.
   */
  lemma SessionIsIsolated(model: Model, ids: seq<string>, queries: seq<Query>, tables: seq<Table>, n: nat)
    requires Plain(model) && IsSession(model, queries, tables) && n <= |queries| && AllConfined(ids, queries, n)
    ensures Kept(tables[0], tables[n], ids)
    ensures forall k :: 0 <= k < n ==> ReadsInScope(ids, queries[k], tables[k])
    ensures Outside(tables[n], ids) == Outside(tables[0], ids) <==> AllStayIn(model, ids, queries, tables, n)
  {
    forall k | 0 <= k < n ensures Separate(model, ids, queries[k], tables[k], tables[k + 1]) {
      ConfinedIsSeparate(model, ids, queries[k], tables[k], tables[k + 1]);
    }
    SeparateThroughout(model, ids, queries, tables, n);
    forall k | 0 <= k < n ensures ReadsInScope(ids, queries[k], tables[k]) {
      assert Separate(model, ids, queries[k], tables[k], tables[k + 1]);
    }
  }

  lemma AllButLast(model: Model, ids: seq<string>, queries: seq<Query>, tables: seq<Table>, n: nat)
    requires model.ScopedBy? && n < |queries| && |tables| == |queries| + 1
    ensures AllStayIn(model, ids, queries, tables, n + 1)
       <==> AllStayIn(model, ids, queries, tables, n) && StaysIn(model, ids, queries[n], tables[n], tables[n + 1])
  {
  }

  /** What is out of scope only grows, so it is the same at the end when no part of the way adds to it. */
  lemma OutsideGrows(first: Table, middle: Table, last: Table, ids: seq<string>)
    requires Kept(first, middle, ids) && Kept(middle, last, ids)
    ensures Kept(first, last, ids)
    ensures Outside(last, ids) == Outside(first, ids)
      <==> Outside(last, ids) == Outside(middle, ids) && Outside(middle, ids) == Outside(first, ids)
  {
    if Outside(last, ids) == Outside(first, ids) {
      assert Outside(middle, ids).Keys == Outside(first, ids).Keys;
    }
  }

  /** Someone whose grants resolve to no tenant reads nothing, and changes nothing where a row must have a tenant. */
  lemma EmptyScopeSeesNothing(model: Model, q: Query, before: Table, after: Table)
    requires Plain(model) && QueryStep(model, q, before, after) && q.state == Scoped(Tenants([]))
    ensures q.read == {}
    ensures after == before <==> StaysIn(model, [], q, before, after)
    ensures model.tenanted.Required? ==> after == before
  {
    ConfinedIsSeparate(model, [], q, before, after);
    assert q.read == {};
    assert Outside(before, []) == before && Outside(after, []) == after;
    if model.tenanted.Required? && ScopedArgs(model, q.op, q.args, q.state).Ok? {
      NoneCreated(model, q, before, after);
    }
  }

  /** Where a row must have a tenant, a let-through create has one in scope, and in an empty scope there is none. */
  lemma NoneCreated(model: Model, q: Query, before: Table, after: Table)
    requires Plain(model) && model.tenanted.Required? && ScopedArgs(model, q.op, q.args, Scoped(Tenants([]))).Ok?
    requires QueryStep(model, q, before, after) && q.state == Scoped(Tenants([])) && q.read == {}
    requires after != before ==> Escapes(model.tenanted, q.op, q.args, [], q.read)
    ensures after == before
  {
    if Writing(q.op) {
      NoneDeclared(q.args.data);
      NoneDeclared(q.args.create);
    }
  }

  lemma NoneDeclared(payload: Payload)
    requires forall k :: 0 <= k < |payload.Entries()| ==> Writable(payload.Entries()[k], [])
    ensures !SomeOutside(Required, payload, [])
  {
    forall k | 0 <= k < |payload.Entries()| ensures !CreatesOutside(Required, payload.Entries()[k], []) {
      assert Writable(payload.Entries()[k], []);
    }
  }

  /** A scoped query is refused exactly when it writes and names a tenant out of scope. */
  lemma RefusedIffOutside(model: Model, op: Operation, args: Args, ids: seq<string>)
    requires Plain(model)
    ensures ScopedArgs(model, op, args, Scoped(Tenants(ids))).Err? <==>
              Writing(op) && exists payload, k ::
                && payload in {args.data, args.create, args.update}
                && 0 <= k < |payload.Entries()| && !Writable(payload.Entries()[k], ids)
  {
  }

  // ---------------------------------------------------------------------------
  // Ways out
  // ---------------------------------------------------------------------------

  /**
   * Where the tenant may be empty, as on audit events, any scoped caller may create a row that is out of its own scope.
   */
  lemma CreatedWithoutTenant(ids: seq<string>, id: string)
    ensures var model := ScopedBy(PlainFilter, Optional);
            var args := Args(None, OneRow(RowData(id, Unset, NoRelation, map[])), NoPayload, NoPayload);
            var after := map[id := Row(id, None, map[])];
            && Plain(model) && ScopedArgs(model, Create, args, Scoped(Tenants(ids))) == Ok(args)
            && Runs(Optional, Create, args, map[], after, {}) && Outside(after, ids) == after
  {
    var data := RowData(id, Unset, NoRelation, map[]);
    var args := Args(None, OneRow(data), NoPayload, NoPayload);
    var entries := [Some(data)];
    assert OneRow(data).Entries() == entries && entries[..0] == [];
    assert Creates(Optional, entries[0]);
    assert WithRows(Optional, map[], entries) == map[id := Row(id, None, map[])];
    assert FirstOutside(entries, ids) == None;
    assert FirstOutside(NoPayload.Entries(), ids) == None;
  }

  /** Setting the column by an operation is not looked at: a row in scope may be moved to any tenant. */
  lemma MovedBySet(ids: seq<string>, id: string, mine: string, other: string)
    requires mine in ids && other !in ids
    ensures var model := ScopedBy(PlainFilter, Required);
            var args := Args(None, OneRow(RowData(id, SetTo(Some(other)), NoRelation, map[])), NoPayload, NoPayload);
            var before, after := map[id := Row(id, Some(mine), map[])], map[id := Row(id, Some(other), map[])];
            var scoped := ScopedArgs(model, UpdateMany, args, Scoped(Tenants(ids)));
            && Plain(model) && scoped.Ok? && Runs(Required, UpdateMany, scoped.value, before, after, {id})
            && Outside(before, ids) == map[] && Outside(after, ids) == after
  {
    var data := RowData(id, SetTo(Some(other)), NoRelation, map[]);
    var entries := [Some(data)];
    assert OneRow(data).Entries() == entries;
    assert FirstOutside(entries, ids) == None;
    var args := Args(None, OneRow(data), NoPayload, NoPayload);
    var before, after := map[id := Row(id, Some(mine), map[])], map[id := Row(id, Some(other), map[])];
    var where := Some(WithFilter(None, PlainFilter(ids)));
    FilterIsConjunction(None, PlainFilter(ids), before[id]);
    assert Picked(before, where, false, {id});
    assert Written(Required, before[id], data) == after[id];
  }
}
