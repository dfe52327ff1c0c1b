/**
 The SQL that list_escalations and _build_safe_update write: clauses with numbered placeholders
 next to an argument list. A clause has a meaning on a row; the builders are proved to preserve
 the meaning of the filter record, and to number their placeholders without gaps.
 */
module EscalationQuery {
  import opened Options

  datatype Value = Text(s: string) | Time(t: int) | Number(n: int)

  datatype Column = Status | Priority | SourceAgent | Reason | AssignedTo

  /** A filter that is missing, a single string, or a list of strings. */
  datatype Filter = Absent | One(v: string) | Many(vs: seq<string>)

  datatype Filters = Filters(
    status: Filter, priority: Filter, sourceAgent: Filter, reason: Filter,
    assignedTo: Option<string>, dateFrom: Option<int>, dateTo: Option<int>)

  datatype Row = Row(
    id: string, status: Option<string>, priority: Option<string>, sourceAgent: string, reason: string,
    assignedTo: Option<string>, createdAt: int)

  datatype Clause =
    | In(col: Column, places: seq<nat>)
    | Equals(col: Column, place: nat)
    | CreatedFrom(place: nat)
    | CreatedTo(place: nat)

  const COLUMNS: seq<Column> := [Status, Priority, SourceAgent, Reason]

  function Field(row: Row, col: Column): Option<string> {
    match col
    case Status => row.status
    case Priority => row.priority
    case SourceAgent => Some(row.sourceAgent)
    case Reason => Some(row.reason)
    case AssignedTo => row.assignedTo
  }

  function Get(filters: Filters, col: Column): Filter {
    match col
    case Status => filters.status
    case Priority => filters.priority
    case SourceAgent => filters.sourceAgent
    case Reason => filters.reason
    case AssignedTo => if filters.assignedTo.Some? then One(filters.assignedTo.value) else Absent
  }

  // ---- what a filter record means ----

  /** An empty string or an empty list is no filter; a NULL column passes no filter. */
  predicate ColumnMatches(filter: Filter, field: Option<string>) {
    match filter
    case Absent => true
    case One(v) => v == "" || field == Some(v)
    case Many(vs) => vs == [] || (field.Some? && field.value in vs)
  }

  /** Every filter of the record, each on its own column of the row. */
  predicate Matches(filters: Filters, row: Row) {
    && ColumnMatches(filters.status, row.status)
    && ColumnMatches(filters.priority, row.priority)
    && ColumnMatches(filters.sourceAgent, Some(row.sourceAgent))
    && ColumnMatches(filters.reason, Some(row.reason))
    && (filters.assignedTo.Some? && filters.assignedTo.value != "" ==> row.assignedTo == filters.assignedTo)
    && (filters.dateFrom.Some? ==> row.createdAt >= filters.dateFrom.value)
    && (filters.dateTo.Some? ==> row.createdAt <= filters.dateTo.value)
  }

  // ---- what a WHERE clause means ----

  function Arg(args: seq<Value>, place: nat): Option<Value> {
    if 1 <= place <= |args| then Some(args[place - 1]) else None
  }

  predicate TextEquals(field: Option<string>, arg: Option<Value>) {
    field.Some? && arg == Some(Text(field.value))
  }

  predicate Holds(c: Clause, args: seq<Value>, row: Row) {
    match c
    case In(col, places) => exists k | 0 <= k < |places| :: TextEquals(Field(row, col), Arg(args, places[k]))
    case Equals(col, place) => TextEquals(Field(row, col), Arg(args, place))
    case CreatedFrom(place) =>
      Arg(args, place).Some? && Arg(args, place).value.Time? && row.createdAt >= Arg(args, place).value.t
    case CreatedTo(place) =>
      Arg(args, place).Some? && Arg(args, place).value.Time? && row.createdAt <= Arg(args, place).value.t
  }

  /** The clauses joined by AND; none of them is the constant 1=1. */
  predicate AllHold(parts: seq<Clause>, args: seq<Value>, row: Row) {
    forall i | 0 <= i < |parts| :: Holds(parts[i], args, row)
  }

  function Places(c: Clause): seq<nat> {
    if c.In? then c.places else [c.place]
  }

  function AllPlaces(parts: seq<Clause>): seq<nat> {
    if parts == [] then [] else AllPlaces(parts[..|parts| - 1]) + Places(parts[|parts| - 1])
  }

  /** 1, 2, ..., n */
  function FirstPlaces(n: nat): seq<nat> { seq(n, i => i + 1) }

  function TextValues(vs: seq<string>): seq<Value> { seq(|vs|, i requires 0 <= i < |vs| => Text(vs[i])) }

  lemma {:induction false} PlaceBounded(parts: seq<Clause>, n: nat, i: nat, p: nat)
    requires AllPlaces(parts) == FirstPlaces(n)
    requires i < |parts| && p in Places(parts[i])
    ensures 1 <= p <= n
  {
    PlaceListed(parts, i, p);
  }

  lemma {:induction false} PlaceListed(parts: seq<Clause>, i: nat, p: nat)
    requires i < |parts| && p in Places(parts[i])
    ensures p in AllPlaces(parts)
  {
    if i < |parts| - 1 { PlaceListed(parts[..|parts| - 1], i, p); }
  }

  /** Arguments appended for a later clause do not change an earlier one. */
  lemma AppendClause(parts: seq<Clause>, args: seq<Value>, c: Clause, more: seq<Value>)
    requires AllPlaces(parts) == FirstPlaces(|args|)
    requires Places(c) == seq(|more|, i => |args| + i + 1)
    ensures AllPlaces(parts + [c]) == FirstPlaces(|args + more|)
    ensures forall row ::
      AllHold(parts + [c], args + more, row) <==> AllHold(parts, args, row) && Holds(c, args + more, row)
  {
    assert (parts + [c])[..|parts|] == parts;
    forall row, i | 0 <= i < |parts|
      ensures Holds(parts[i], args + more, row) == Holds(parts[i], args, row)
    {
      forall p | p in Places(parts[i])
        ensures Arg(args + more, p) == Arg(args, p)
      {
        PlaceBounded(parts, |args|, i, p);
      }
      assert parts[i].In? ==> forall k | 0 <= k < |parts[i].places| :: parts[i].places[k] in Places(parts[i]);
      assert !parts[i].In? ==> parts[i].place in Places(parts[i]);
    }
    forall row
      ensures AllHold(parts + [c], args + more, row) <==> AllHold(parts, args, row) && Holds(c, args + more, row)
    {
      var all := parts + [c];
      assert all[|parts|] == c;
      assert forall i | 0 <= i < |parts| :: all[i] == parts[i];
    }
  }

  lemma InMeaning(col: Column, args: seq<Value>, vs: seq<string>, row: Row)
    requires vs != []
    ensures Holds(In(col, seq(|vs|, i => |args| + i + 1)), args + TextValues(vs), row)
       <==> ColumnMatches(Many(vs), Field(row, col))
  {
    var places: seq<nat> := seq(|vs|, i => |args| + i + 1);
    var all := args + TextValues(vs);
    assert forall k | 0 <= k < |vs| :: Arg(all, places[k]) == Some(Text(vs[k]));
  }

  // ---- the builders ----

  predicate ColumnsMatch(filters: Filters, n: nat, row: Row)
    requires n <= |COLUMNS|
  {
    forall i | 0 <= i < n :: ColumnMatches(Get(filters, COLUMNS[i]), Field(row, COLUMNS[i]))
  }

  /** One column of the loop: IN for a list, = for a string, nothing for an empty filter. */
  method AppendColumn(col: Column, filter: Filter, parts: seq<Clause>, args: seq<Value>)
    returns (parts': seq<Clause>, args': seq<Value>)
    requires AllPlaces(parts) == FirstPlaces(|args|)
    ensures AllPlaces(parts') == FirstPlaces(|args'|)
    ensures forall row ::
      AllHold(parts', args', row) <==> AllHold(parts, args, row) && ColumnMatches(filter, Field(row, col))
  {
    parts', args' := parts, args;
    match filter {
      case Absent =>
      case One(v) =>
        if v != "" {
          args' := args' + [Text(v)];
          var c := Equals(col, |args'|);
          parts' := parts' + [c];
          AppendClause(parts, args, c, [Text(v)]);
        }
      case Many(vs) =>
        if vs != [] {
          var places: seq<nat> := [];
          for i := 0 to |vs|
            invariant places == seq(i, j => |args| + j + 1)
          {
            places := places + [|args| + i + 1];
          }
          var c := In(col, places);
          args' := args' + TextValues(vs);
          parts' := parts' + [c];
          AppendClause(parts, args, c, TextValues(vs));
          forall row { InMeaning(col, args, vs, row); }
        }
    }
  }

  method AppendDateFrom(from: Option<int>, parts: seq<Clause>, args: seq<Value>)
    returns (parts': seq<Clause>, args': seq<Value>)
    requires AllPlaces(parts) == FirstPlaces(|args|)
    ensures AllPlaces(parts') == FirstPlaces(|args'|)
    ensures forall row ::
      AllHold(parts', args', row) <==> AllHold(parts, args, row) && (from.Some? ==> row.createdAt >= from.value)
  {
    parts', args' := parts, args;
    if from.Some? {
      var more, c := [Time(from.value)], CreatedFrom(|args| + 1);
      AppendClause(parts, args, c, more);
      parts', args' := parts + [c], args + more;
    }
  }

  method AppendDateTo(to: Option<int>, parts: seq<Clause>, args: seq<Value>)
    returns (parts': seq<Clause>, args': seq<Value>)
    requires AllPlaces(parts) == FirstPlaces(|args|)
    ensures AllPlaces(parts') == FirstPlaces(|args'|)
    ensures forall row ::
      AllHold(parts', args', row) <==> AllHold(parts, args, row) && (to.Some? ==> row.createdAt <= to.value)
  {
    parts', args' := parts, args;
    if to.Some? {
      var more, c := [Time(to.value)], CreatedTo(|args| + 1);
      AppendClause(parts, args, c, more);
      parts', args' := parts + [c], args + more;
    }
  }

  predicate FourMatch(filters: Filters, row: Row) {
    && ColumnMatches(filters.status, row.status) && ColumnMatches(filters.priority, row.priority)
    && ColumnMatches(filters.sourceAgent, Some(row.sourceAgent)) && ColumnMatches(filters.reason, Some(row.reason))
  }

  /** The loop's list of columns leaves out none of the four. */
  lemma LoopCoversColumns(filters: Filters, row: Row)
    ensures ColumnsMatch(filters, |COLUMNS|, row) <==> FourMatch(filters, row)
  {
    assert COLUMNS[0] == Status && COLUMNS[1] == Priority && COLUMNS[2] == SourceAgent && COLUMNS[3] == Reason;
    if ColumnsMatch(filters, |COLUMNS|, row) {
      forall i | 0 <= i < |COLUMNS| ensures ColumnMatches(Get(filters, COLUMNS[i]), Field(row, COLUMNS[i])) {}
    }
  }

  /** The WHERE clause with its arguments: the filter record's meaning, placeholders 1..n in order. */
  method BuildWhere(filters: Filters) returns (parts: seq<Clause>, args: seq<Value>)
    ensures AllPlaces(parts) == FirstPlaces(|args|)
    ensures forall row :: AllHold(parts, args, row) <==> Matches(filters, row)
  {
    parts, args := [], [];
    for i := 0 to |COLUMNS|
      invariant AllPlaces(parts) == FirstPlaces(|args|)
      invariant forall row :: AllHold(parts, args, row) <==> ColumnsMatch(filters, i, row)
    {
      parts, args := AppendColumn(COLUMNS[i], Get(filters, COLUMNS[i]), parts, args);
    }
    forall row ensures ColumnsMatch(filters, |COLUMNS|, row) <==> FourMatch(filters, row) {
      LoopCoversColumns(filters, row);
    }
    parts, args := AppendColumn(AssignedTo, Get(filters, AssignedTo), parts, args);
    parts, args := AppendDateFrom(filters.dateFrom, parts, args);
    parts, args := AppendDateTo(filters.dateTo, parts, args);
  }
}
