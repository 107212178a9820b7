/** Slicing pending mutations down to what a read needs (AlterConversions::filterMutationCommands). */
module Mutations {

  type Column = string
  type Row = map<Column, int>

  const ROW_EXISTS: Column := "_row_exists"

  /** An expression: a literal, or anything computed from the columns whose names occur in it. A column missing from the
      row reads as not being there at all. */
  datatype Expr =
    | Literal(value: int)
    | Computed(columns: set<Column>, f: Row -> int)
  {
    function Identifiers(): set<Column> {
      match this case Literal(_) => {} case Computed(columns, _) => columns
    }

    function Eval(row: Row): int {
      match this
      case Literal(v) => v
      case Computed(columns, f) => f(map c | c in row && c in columns :: row[c])
    }
  }

  datatype Command =
    | Delete(predicate_: Expr)
    | Update(predicate_: Expr, assignments: map<Column, Expr>)
    | Other

  predicate IsLightweightDelete(column: Column, e: Expr) {
    column == ROW_EXISTS && e.Literal? && e.value == 0
  }

  /** What running commands on a row yields: the new row, or nothing once it is deleted. */
  datatype Outcome = Deleted | Alive(row: Row)

  predicate DeletesRow(c: Command)
    requires c.Update?
  {
    exists column :: column in c.assignments && IsLightweightDelete(column, c.assignments[column])
  }

  /** The assignments that really store a value. */
  function Stores(c: Command): map<Column, Expr>
    requires c.Update?
  {
    map column | column in c.assignments && !IsLightweightDelete(column, c.assignments[column]) :: c.assignments[column]
  }

  function Assign(row: Row, assignments: map<Column, Expr>): Row {
    map c | c in row.Keys + assignments.Keys :: if c in assignments then assignments[c].Eval(row) else row[c]
  }

  /** One command on one row. */
  function Apply(c: Command, row: Row): Outcome {
    match c
    case Delete(p) => if p.Eval(row) != 0 then Deleted else Alive(row)
    case Update(p, _) =>
      if p.Eval(row) == 0 then Alive(row)
      else if DeletesRow(c) then Deleted
      else Alive(Assign(row, Stores(c)))
    case Other => Alive(row)
  }

  function Run(commands: seq<Command>, row: Row): Outcome {
    if commands == [] then Alive(row)
    else match Apply(commands[0], row)
      case Deleted => Deleted
      case Alive(next) => Run(commands[1..], next)
  }

  lemma {:induction false} RunConcat(a: seq<Command>, b: seq<Command>, row: Row)
    ensures Run(a + b, row) == match Run(a, row) case Deleted => Deleted case Alive(next) => Run(b, next)
  {
    if a == [] {
      assert a + b == b;
    } else {
      assert (a + b)[1..] == a[1..] + b;
      if Apply(a[0], row).Alive? {
        RunConcat(a[1..], b, Apply(a[0], row).row);
      }
    }
  }

  predicate Agree(a: Row, b: Row, columns: set<Column>) {
    forall c :: c in columns ==> (c in a <==> c in b) && (c in a ==> a[c] == b[c])
  }

  /** Same survival, and the same values in the given columns. */
  predicate SameOutcome(a: Outcome, b: Outcome, columns: set<Column>) {
    (a.Deleted? <==> b.Deleted?) && (a.Alive? ==> Agree(a.row, b.row, columns))
  }

  lemma EvalAgrees(e: Expr, a: Row, b: Row)
    requires Agree(a, b, e.Identifiers())
    ensures e.Eval(a) == e.Eval(b)
  {
    if e.Computed? {
      assert (map c | c in a && c in e.columns :: a[c]) == (map c | c in b && c in e.columns :: b[c]);
    }
  }

  /** The assignments kept for a set of columns. */
  function Kept(c: Command, columns: set<Column>): map<Column, Expr>
    requires c.Update?
  {
    map column | column in Stores(c) && column in columns :: Stores(c)[column]
  }

  /** What one command becomes, in order of execution: an update that is also a lightweight delete is split in two. */
  function Sliced(c: Command, columns: set<Column>): seq<Command> {
    match c
    case Delete(_) => [c]
    case Update(p, _) =>
      (if Kept(c, columns) != map[] then [Update(p, Kept(c, columns))] else [])
      + (if DeletesRow(c) then [Delete(p)] else [])
    case Other => []
  }

  /** The columns whose names occur in the assigned expressions. */
  function NamesIn(assignments: map<Column, Expr>): set<Column> {
    set column, name | column in assignments && name in assignments[column].Identifiers() :: name
  }

  function SourceColumns(c: Command, columns: set<Column>): set<Column> {
    match c
    case Delete(p) => p.Identifiers()
    case Update(p, _) =>
      NamesIn(Kept(c, columns))
      + (if Sliced(c, columns) != [] then p.Identifiers() else {})
    case Other => {}
  }

  /** The columns to read and the commands to run for a suffix of the commands. */
  function NeededColumns(commands: seq<Command>, columns: set<Column>): set<Column> {
    if commands == [] then columns
    else
      var later := NeededColumns(commands[1..], columns);
      later + SourceColumns(commands[0], later)
  }

  function Slice(commands: seq<Command>, columns: set<Column>): seq<Command> {
    if commands == [] then []
    else Sliced(commands[0], NeededColumns(commands[1..], columns)) + Slice(commands[1..], columns)
  }

  predicate Supported(commands: seq<Command>) {
    forall i :: 0 <= i < |commands| ==> !commands[i].Other?
  }

  /** On this row the kept assignments of a command that also deletes do not turn its own predicate off. */
  predicate PredicateStaysAt(c: Command, columns: set<Column>, row: Row) {
    c.Update? && DeletesRow(c) && c.predicate_.Eval(row) != 0 ==> c.predicate_.Eval(Assign(row, Kept(c, columns))) != 0
  }

  /** One command: on rows that agree on what is needed before it, the original and the slice agree on what is needed
      after it. */
  lemma SlicedAgrees(c: Command, columns: set<Column>, a: Row, b: Row)
    requires !c.Other? && PredicateStaysAt(c, columns, b)
    requires Agree(a, b, columns + SourceColumns(c, columns))
    ensures SameOutcome(Apply(c, a), Run(Sliced(c, columns), b), columns)
  {
    if c.Delete? {
      EvalAgrees(c.predicate_, a, b);
      assert Run([c], b) == match Apply(c, b) case Deleted => Deleted case Alive(r) => Run([], r);
    } else {
      UpdateAgrees(c, columns, a, b);
    }
  }

  lemma UpdateAgrees(c: Command, columns: set<Column>, a: Row, b: Row)
    requires c.Update? && PredicateStaysAt(c, columns, b)
    requires Agree(a, b, columns + SourceColumns(c, columns))
    ensures SameOutcome(Apply(c, a), Run(Sliced(c, columns), b), columns)
  {
    var p, kept := c.predicate_, Kept(c, columns);
    RunSliced(c, columns, b);
    if Sliced(c, columns) == [] {
      assert forall column :: column in Stores(c) ==> column !in columns by {
        assert forall column :: column in Stores(c) && column in columns ==> column in kept;
      }
    } else {
      assert Agree(a, b, p.Identifiers());
      EvalAgrees(p, a, b);
      if p.Eval(b) != 0 {
        if DeletesRow(c) {
          NothingKept(c, columns, b);
        } else {
          AssignAgrees(c, columns, a, b);
        }
      }
    }
  }

  /** The slice of an update: the kept assignments first, then the deletion. */
  lemma RunSliced(c: Command, columns: set<Column>, b: Row)
    requires c.Update?
    ensures var p, kept := c.predicate_, Kept(c, columns);
            var updated := if kept != map[] && p.Eval(b) != 0 then Assign(b, kept) else b;
            Run(Sliced(c, columns), b) == if DeletesRow(c) && p.Eval(updated) != 0 then Deleted else Alive(updated)
  {
    var p, kept := c.predicate_, Kept(c, columns);
    var update, delete := Update(p, kept), Delete(p);
    assert Stores(update) == kept && !DeletesRow(update);
    assert forall r :: Run([delete], r) == Apply(delete, r) by {
      forall r ensures Run([delete], r) == Apply(delete, r) {
        assert [delete][1..] == [];
      }
    }
    if kept != map[] {
      var tail := if DeletesRow(c) then [delete] else [];
      assert Sliced(c, columns) == [update] + tail;
      assert ([update] + tail)[1..] == tail;
    } else {
      assert Sliced(c, columns) == if DeletesRow(c) then [delete] else [];
    }
  }

  lemma AssignAgrees(c: Command, columns: set<Column>, a: Row, b: Row)
    requires c.Update? && Agree(a, b, columns + SourceColumns(c, columns))
    ensures Agree(Assign(a, Stores(c)), Assign(b, Kept(c, columns)), columns)
  {
    var kept := Kept(c, columns);
    forall column | column in columns && column in Stores(c)
      ensures column in kept && Stores(c)[column].Eval(a) == kept[column].Eval(b)
    {
      var e := kept[column];
      assert e.Identifiers() <= SourceColumns(c, columns);
      EvalAgrees(e, a, b);
    }
  }

  /** What decides about one row: along the run, the first command that deletes the row keeps its predicate on after its
      kept assignments, or else the commands after it delete the row all the same. */
  predicate DeletesInTime(commands: seq<Command>, columns: set<Column>, row: Row) {
    if commands == [] then true
    else
      var c, rest := commands[0], commands[1..];
      var later := NeededColumns(rest, columns);
      if !PredicateStaysAt(c, later, row) then Run(Slice(rest, columns), Assign(row, Kept(c, later))).Deleted?
      else match Run(Sliced(c, later), row)
        case Deleted => true
        case Alive(next) => DeletesInTime(rest, columns, next)
  }

  /** For every list of commands and every row: on rows that agree on the columns to read, running all commands and
      running the slice give the same survival and the same value in each requested column exactly in that case. */
  lemma {:induction false} SliceExactAt(commands: seq<Command>, columns: set<Column>, a: Row, b: Row)
    requires Supported(commands)
    requires Agree(a, b, NeededColumns(commands, columns))
    ensures SameOutcome(Run(commands, a), Run(Slice(commands, columns), b), columns) <==> DeletesInTime(commands, columns, b)
  {
    if commands != [] {
      var c, rest := commands[0], commands[1..];
      var later := NeededColumns(rest, columns);
      RunConcat(Sliced(c, later), Slice(rest, columns), b);
      if PredicateStaysAt(c, later, b) {
        SlicedAgrees(c, later, a, b);
        if Apply(c, a).Alive? {
          SliceExactAt(rest, columns, Apply(c, a).row, Run(Sliced(c, later), b).row);
        }
      } else {
        SplitTooLate(c, later, a, b);
      }
    }
  }

  lemma NothingKept(c: Command, columns: set<Column>, row: Row)
    requires c.Update?
    ensures Kept(c, columns) == map[] ==> Assign(row, Kept(c, columns)) == row
  {
  }

  /** A command that loses its deletion: the original deletes the row, the slice goes on with the updated one. */
  lemma SplitTooLate(c: Command, columns: set<Column>, a: Row, b: Row)
    requires !PredicateStaysAt(c, columns, b) && Agree(a, b, columns + SourceColumns(c, columns))
    ensures Apply(c, a) == Deleted && Run(Sliced(c, columns), b) == Alive(Assign(b, Kept(c, columns)))
  {
    RunSliced(c, columns, b);
    NothingKept(c, columns, b);
    assert Sliced(c, columns) != [];
    EvalAgrees(c.predicate_, a, b);
  }

  /** No kept assignment ever turns the predicate of its own deleting command off. */
  ghost predicate PredicatesStay(commands: seq<Command>, columns: set<Column>) {
    commands == [] ||
    (PredicatesStay(commands[1..], columns) &&
     forall row :: PredicateStaysAt(commands[0], NeededColumns(commands[1..], columns), row))
  }

  /** What a caller can see from the commands alone: no deleting command keeps an assignment to a column of its own
      predicate. */
  predicate SplitsAreSafe(commands: seq<Command>, columns: set<Column>) {
    commands == [] ||
    (var c := commands[0];
     && (c.Update? && DeletesRow(c) ==> Kept(c, NeededColumns(commands[1..], columns)).Keys !! c.predicate_.Identifiers())
     && SplitsAreSafe(commands[1..], columns))
  }

  lemma {:induction false} SafeSplitsStay(commands: seq<Command>, columns: set<Column>)
    requires SplitsAreSafe(commands, columns)
    ensures PredicatesStay(commands, columns)
  {
    if commands != [] {
      var c, later := commands[0], NeededColumns(commands[1..], columns);
      SafeSplitsStay(commands[1..], columns);
      forall row ensures PredicateStaysAt(c, later, row) {
        if c.Update? && DeletesRow(c) {
          assert Agree(Assign(row, Kept(c, later)), row, c.predicate_.Identifiers());
          EvalAgrees(c.predicate_, Assign(row, Kept(c, later)), row);
        }
      }
    }
  }

  lemma {:induction false} StayingDeletesInTime(commands: seq<Command>, columns: set<Column>, row: Row)
    requires PredicatesStay(commands, columns)
    ensures DeletesInTime(commands, columns, row)
  {
    if commands != [] {
      var later := NeededColumns(commands[1..], columns);
      assert PredicateStaysAt(commands[0], later, row);
      if Run(Sliced(commands[0], later), row).Alive? {
        StayingDeletesInTime(commands[1..], columns, Run(Sliced(commands[0], later), row).row);
      }
    }
  }

  /** On every two rows that agree on the columns to read, the slice does what all commands do. */
  ghost predicate SliceAgrees(commands: seq<Command>, columns: set<Column>) {
    forall a: Row, b: Row :: Agree(a, b, NeededColumns(commands, columns)) ==>
      SameOutcome(Run(commands, a), Run(Slice(commands, columns), b), columns)
  }

  ghost predicate AlwaysInTime(commands: seq<Command>, columns: set<Column>) {
    forall row: Row :: DeletesInTime(commands, columns, row)
  }

  /** The slice preserves meaning for every row exactly if every row is deleted in time, which holds if no kept assignment
      turns off the predicate of its own command. */
  lemma SlicePreservesMeaning(commands: seq<Command>, columns: set<Column>)
    requires Supported(commands)
    ensures SliceAgrees(commands, columns) <==> AlwaysInTime(commands, columns)
    ensures PredicatesStay(commands, columns) ==> AlwaysInTime(commands, columns)
  {
    hide Run, Slice, SameOutcome, NeededColumns, PredicatesStay, DeletesInTime, Supported;
    if SliceAgrees(commands, columns) {
      forall row: Row ensures DeletesInTime(commands, columns, row) {
        SliceExactAt(commands, columns, row, row);
      }
    }
    if AlwaysInTime(commands, columns) {
      forall a: Row, b: Row | Agree(a, b, NeededColumns(commands, columns))
        ensures SameOutcome(Run(commands, a), Run(Slice(commands, columns), b), columns)
      {
        SliceExactAt(commands, columns, a, b);
      }
    }
    if PredicatesStay(commands, columns) {
      forall row: Row ensures DeletesInTime(commands, columns, row) {
        StayingDeletesInTime(commands, columns, row);
      }
    }
  }

  /** A row cut down to the columns to read is enough for the slice, in exactly the same cases. */
  lemma SliceNeedsOnlyReadColumns(commands: seq<Command>, columns: set<Column>, row: Row)
    requires Supported(commands)
    ensures
      var read := map c | c in row && c in NeededColumns(commands, columns) :: row[c];
      SameOutcome(Run(commands, row), Run(Slice(commands, columns), read), columns) <==> DeletesInTime(commands, columns, read)
  {
    SliceExactAt(commands, columns, row, map c | c in row && c in NeededColumns(commands, columns) :: row[c]);
  }

  function CommandColumns(c: Command): set<Column> {
    match c
    case Delete(p) => p.Identifiers()
    case Update(p, assignments) =>
      p.Identifiers() + assignments.Keys
      + NamesIn(assignments)
    case Other => {}
  }

  /** Every column that a kept command reads or writes is among the columns to read. */
  lemma {:induction false} SliceColumnsAreRead(commands: seq<Command>, columns: set<Column>)
    ensures forall c :: c in Slice(commands, columns) ==> CommandColumns(c) <= NeededColumns(commands, columns)
  {
    if commands != [] {
      SliceColumnsAreRead(commands[1..], columns);
      var later := NeededColumns(commands[1..], columns);
      forall c | c in Sliced(commands[0], later)
        ensures CommandColumns(c) <= later + SourceColumns(commands[0], later)
      {
        if c.Update? {
          assert c.assignments == Kept(commands[0], later);
        }
      }
    }
  }

  /** Nothing else is read: a column that was not requested occurs in a kept command. */
  lemma {:induction false} OnlyNeededAreRead(commands: seq<Command>, columns: set<Column>, column: Column)
    requires column in NeededColumns(commands, columns) && column !in columns
    ensures exists c :: c in Slice(commands, columns) && column in CommandColumns(c)
  {
    var c, rest := commands[0], commands[1..];
    var later := NeededColumns(rest, columns);
    if column in later {
      OnlyNeededAreRead(rest, columns, column);
      var kept :| kept in Slice(rest, columns) && column in CommandColumns(kept);
      assert kept in Slice(commands, columns);
    } else {
      SourceOccurs(c, later, column);
      var kept :| kept in Sliced(c, later) && column in CommandColumns(kept);
      assert kept in Slice(commands, columns);
    }
  }

  lemma SourceOccurs(c: Command, columns: set<Column>, column: Column)
    requires column in SourceColumns(c, columns)
    ensures exists kept :: kept in Sliced(c, columns) && column in CommandColumns(kept)
  {
    var slice := Sliced(c, columns);
    assert slice != [] && slice[0] in slice;
    if c.Update? && Kept(c, columns) != map[] {
      assert slice[0] == Update(c.predicate_, Kept(c, columns));
    }
  }

  /** Nothing else is kept: a command of the slice is a deletion, or it assigns something, and only columns that were
      requested or that a later kept command reads or writes. */
  lemma {:induction false} OnlyNeededAreKept(commands: seq<Command>, columns: set<Column>, i: nat)
    requires i < |Slice(commands, columns)|
    ensures KeptForUse(Slice(commands, columns), i, columns)
  {
    var c, rest := commands[0], commands[1..];
    var later := NeededColumns(rest, columns);
    var own, tail := Sliced(c, later), Slice(rest, columns);
    if i < |own| {
      OwnForUse(c, rest, columns, i);
    } else {
      OnlyNeededAreKept(rest, columns, i - |own|);
      UseBehind(own, tail, i - |own|, columns);
    }
  }

  predicate KeptForUse(slice: seq<Command>, i: nat, columns: set<Column>)
    requires i < |slice|
  {
    && !slice[i].Other?
    && (slice[i].Update? ==> slice[i].assignments != map[])
    && (slice[i].Update? ==> forall column :: column in slice[i].assignments ==>
          column in columns || exists j :: i < j < |slice| && column in CommandColumns(slice[j]))
  }

  lemma UseBehind(own: seq<Command>, tail: seq<Command>, i: nat, columns: set<Column>)
    requires i < |tail| && KeptForUse(tail, i, columns)
    ensures KeptForUse(own + tail, |own| + i, columns)
  {
    hide CommandColumns;
    var slice := own + tail;
    assert slice[|own| + i] == tail[i];
    if tail[i].Update? {
      forall column | column in tail[i].assignments && column !in columns
        ensures exists j :: |own| + i < j < |slice| && column in CommandColumns(slice[j])
      {
        var j :| i < j < |tail| && column in CommandColumns(tail[j]);
        assert slice[|own| + j] == tail[j];
      }
    }
  }

  lemma OwnForUse(c: Command, rest: seq<Command>, columns: set<Column>, i: nat)
    requires i < |Sliced(c, NeededColumns(rest, columns))|
    ensures KeptForUse(Sliced(c, NeededColumns(rest, columns)) + Slice(rest, columns), i, columns)
  {
    var later := NeededColumns(rest, columns);
    var own, tail := Sliced(c, later), Slice(rest, columns);
    var slice := own + tail;
    assert slice[i] == own[i];
    if own[i].Update? {
      assert own[i].assignments == Kept(c, later) != map[];
      hide CommandColumns, Slice, Sliced, NeededColumns;
      forall column | column in own[i].assignments && column !in columns
        ensures exists j :: i < j < |slice| && column in CommandColumns(slice[j])
      {
        OnlyNeededAreRead(rest, columns, column);
        var kept :| kept in tail && column in CommandColumns(kept);
        var j :| 0 <= j < |tail| && tail[j] == kept;
        assert slice[|own| + j] == kept;
      }
    }
  }

  /** The slice of one command does to this row what the command does. */
  predicate SplitAgreesAt(c: Command, columns: set<Column>, row: Row) {
    SameOutcome(Run([c], row), Run(Sliced(c, columns), row), columns)
  }

  lemma SplitExactAt(c: Command, columns: set<Column>, row: Row)
    requires c.Update? && DeletesRow(c)
    ensures SplitAgreesAt(c, columns, row) <==> PredicateStaysAt(c, columns, row)
  {
    RunSliced(c, columns, row);
    assert [c][1..] == [];
    assert Run([c], row) == Apply(c, row);
    if Kept(c, columns) == map[] {
      assert Assign(row, Kept(c, columns)) == row;
    }
  }

  /** Splitting one mixed command keeps its meaning exactly when its update never turns its own predicate off. */
  lemma SplitExact(c: Command, columns: set<Column>)
    requires c.Update? && DeletesRow(c)
    ensures (forall row :: SplitAgreesAt(c, columns, row)) <==> (forall row :: PredicateStaysAt(c, columns, row))
  {
    forall row ensures SplitAgreesAt(c, columns, row) <==> PredicateStaysAt(c, columns, row) {
      SplitExactAt(c, columns, row);
    }
  }

  function IsOne(): Expr {
    Computed({"x"}, (r: Row) => if "x" in r && r["x"] == 1 then 1 else 0)
  }

  lemma IsOneAt(v: int)
    ensures IsOne().Eval(map["x" := v]) == if v == 1 then 1 else 0
  {
    var row: Row := map["x" := v];
    assert (map k | k in row && k in {"x"} :: row[k]) == row;
  }

  /** UPDATE x = 0, _row_exists = 0 WHERE x = 1, read for column x: the slice updates x first and then deletes nothing. */
  lemma SplitCounterexample()
    ensures var c := Update(IsOne(), map["x" := Literal(0), ROW_EXISTS := Literal(0)]);
            var row: Row := map["x" := 1];
            Run([c], row) == Deleted && Run(Slice([c], {"x"}), row) == Alive(map["x" := 0])
  {
    var c := Update(IsOne(), map["x" := Literal(0), ROW_EXISTS := Literal(0)]);
    var row: Row := map["x" := 1];
    assert ROW_EXISTS in c.assignments && IsLightweightDelete(ROW_EXISTS, c.assignments[ROW_EXISTS]);
    assert "x" in Stores(c) && "x" in Kept(c, {"x"});
    assert Assign(row, Kept(c, {"x"})) == map["x" := 0];
    IsOneAt(1);
    IsOneAt(0);
    hide IsOne, Assign, Stores, Kept;
    assert [c][1..] == [];
    assert NeededColumns([], {"x"}) == {"x"};
    assert Slice([c], {"x"}) == Sliced(c, {"x"}) + [] == Sliced(c, {"x"});
    RunSliced(c, {"x"}, row);
  }

  datatype Result = Filtered(commands: seq<Command>, readColumns: seq<Column>) | UnexpectedMutation

  function ToSet(s: seq<Column>): set<Column> {
    set c | c in s
  }

  /** The reverse loop over the commands. `readColumns` grows by what each kept command needs; the commands are collected
      last first and reversed at the end. */
  method FilterMutationCommands(commands: seq<Command>, readColumns: seq<Column>) returns (result: Result)
    ensures result.UnexpectedMutation? <==> !Supported(commands)
    ensures result.Filtered? ==>
      && result.commands == Slice(commands, ToSet(readColumns))
      && readColumns <= result.readColumns
      && ToSet(result.readColumns) == NeededColumns(commands, ToSet(readColumns))
      && AppendedOnce(result.readColumns, |readColumns|)
  {
    hide Sliced, SourceColumns, Reversed, ToSet;
    var filtered: seq<Command> := [];
    var read, readSet := readColumns, ToSet(readColumns);
    var i := |commands|;
    assert commands[i..] == [];
    ReversedEmpty();
    while i > 0
      invariant 0 <= i <= |commands| && Supported(commands[i..])
      invariant Reversed(filtered) == Slice(commands[i..], ToSet(readColumns))
      invariant readSet == ToSet(read) == NeededColumns(commands[i..], ToSet(readColumns))
      invariant readColumns <= read && AppendedOnce(read, |readColumns|)
    {
      i := i - 1;
      assert commands[i..] == [commands[i]] + commands[i + 1..] && commands[i..][1..] == commands[i + 1..];
      if commands[i].Other? {
        return UnexpectedMutation;
      }
      var sourceColumns;
      filtered, sourceColumns := FilterCommand(commands[i], readSet, filtered);
      read, readSet := AddColumns(read, readSet, sourceColumns, |readColumns|);
    }
    assert commands[0..] == commands;
    return Filtered(Reversed(filtered), read);
  }

  method FilterCommand(command: Command, readSet: set<Column>, filtered: seq<Command>)
    returns (result: seq<Command>, sourceColumns: set<Column>)
    requires !command.Other?
    ensures Reversed(result) == Sliced(command, readSet) + Reversed(filtered)
    ensures sourceColumns == SourceColumns(command, readSet)
  {
    hide Kept, DeletesRow, NamesIn, Reversed, Expr.Identifiers, Stores;
    result := filtered;
    ReversedSnoc(result, command);
    if command.Delete? {
      return result + [command], command.predicate_.Identifiers();
    }
    var hasLightweightDelete, kept, names := SortAssignments(command, readSet);
    sourceColumns := names;
    var delete, update := Delete(command.predicate_), Update(command.predicate_, kept);
    if hasLightweightDelete {
      ReversedSnoc(result, delete);
      result := result + [delete];
      sourceColumns := sourceColumns + command.predicate_.Identifiers();
    }
    if kept != map[] {
      ReversedSnoc(result, update);
      result := result + [update];
      sourceColumns := sourceColumns + command.predicate_.Identifiers();
    }
  }

  /** The loop over one update's assignments, in any order. */
  method SortAssignments(command: Command, readSet: set<Column>)
    returns (hasLightweightDelete: bool, kept: map<Column, Expr>, names: set<Column>)
    requires command.Update?
    ensures hasLightweightDelete <==> DeletesRow(command)
    ensures kept == Kept(command, readSet) && names == NamesIn(kept)
  {
    hasLightweightDelete, kept, names := false, map[], {};
    var rest := command.assignments.Keys;
    while rest != {}
      invariant rest <= command.assignments.Keys
      invariant hasLightweightDelete <==>
        exists c :: c in command.assignments.Keys - rest && IsLightweightDelete(c, command.assignments[c])
      invariant kept == map c | c in Kept(command, readSet) && c !in rest :: command.assignments[c]
      invariant names == NamesIn(kept)
      decreases rest
    {
      var column :| column in rest;
      var ast := command.assignments[column];
      rest := rest - {column};
      if IsLightweightDelete(column, ast) {
        hasLightweightDelete := true;
      } else if column in readSet {
        NamesAdded(kept, column, ast);
        names := names + ast.Identifiers();
        kept := kept[column := ast];
      }
    }
  }

  lemma NamesAdded(kept: map<Column, Expr>, column: Column, e: Expr)
    requires column !in kept
    ensures NamesIn(kept[column := e]) == NamesIn(kept) + e.Identifiers()
  {
    var next := kept[column := e];
    forall name | name in NamesIn(kept) ensures name in NamesIn(next) {
      var c :| c in kept && name in kept[c].Identifiers();
      assert c in next && next[c] == kept[c];
    }
    forall name | name in e.Identifiers() ensures name in NamesIn(next) {
      assert column in next && next[column] == e;
    }
  }

  /** Behind the first `requested` columns each one is new. */
  predicate AppendedOnce(columns: seq<Column>, requested: nat) {
    forall k :: requested <= k < |columns| ==> columns[k] !in columns[..k]
  }

  /** Append the columns that are not there yet, in any order. */
  method AddColumns(read: seq<Column>, readSet: set<Column>, columns: set<Column>, ghost requested: nat)
    returns (result: seq<Column>, resultSet: set<Column>)
    requires readSet == ToSet(read) && AppendedOnce(read, requested)
    ensures read <= result && resultSet == ToSet(result) == readSet + columns
    ensures AppendedOnce(result, requested)
  {
    result, resultSet := read, readSet;
    var rest := columns;
    while rest != {}
      invariant rest <= columns && read <= result && AppendedOnce(result, requested)
      invariant resultSet == ToSet(result) && resultSet + rest == readSet + columns
      decreases rest
    {
      var column :| column in rest;
      rest := rest - {column};
      if column !in resultSet {
        result, resultSet := result + [column], resultSet + {column};
      }
    }
  }

  function Reversed(s: seq<Command>): seq<Command> {
    if s == [] then [] else [s[|s| - 1]] + Reversed(s[..|s| - 1])
  }

  lemma ReversedEmpty()
    ensures Reversed([]) == []
  {
  }

  lemma ReversedSnoc(s: seq<Command>, c: Command)
    ensures Reversed(s + [c]) == [c] + Reversed(s)
  {
    assert (s + [c])[..|s|] == s;
  }
}
