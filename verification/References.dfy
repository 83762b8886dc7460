/** Renaming the tables that foreign keys point at, and how replay of one table commutes with it. A
    prefix and a table rename are the two renamings in use. */
module References {
  import opened Common
  import opened Schema

  type Renaming = string -> string

  function MapRef(f: Renaming, c: TableConstraint): TableConstraint {
    if c.ForeignKey? then c.(refTable := f(c.refTable)) else c
  }

  function MapRefs(f: Renaming, cs: seq<TableConstraint>): seq<TableConstraint> {
    seq(|cs|, i requires 0 <= i < |cs| => MapRef(f, cs[i]))
  }

  /** A table-local action on `table` whose constraints are renamed. */
  function MapAction(f: Renaming, table: string, a: Action): (r: Action)
    requires IsTableLocal(a)
    ensures IsTableLocal(r) && r.table == table
  {
    match a
    case AddColumn(_, c) => AddColumn(table, c)
    case DeleteColumn(_, c) => DeleteColumn(table, c)
    case RenameColumn(_, from, to) => RenameColumn(table, from, to)
    case ModifyColumnType(_, c, ty) => ModifyColumnType(table, c, ty)
    case ModifyColumnNullable(_, c, n) => ModifyColumnNullable(table, c, n)
    case ModifyColumnDefault(_, c, d) => ModifyColumnDefault(table, c, d)
    case ModifyColumnComment(_, c, d) => ModifyColumnComment(table, c, d)
    case AddConstraint(_, c) => AddConstraint(table, MapRef(f, c))
    case RemoveConstraint(_, c) => RemoveConstraint(table, MapRef(f, c))
    case ReplaceConstraint(_, c, d) => ReplaceConstraint(table, MapRef(f, c), MapRef(f, d))
    case RemapEnumValues(_, c, m) => RemapEnumValues(table, c, m)
  }

  /** Nothing else is renamed to what the constraint's target is renamed to. */
  ghost predicate Separates(f: Renaming, c: TableConstraint) {
    c.ForeignKey? ==> forall x :: f(x) == f(c.refTable) ==> x == c.refTable
  }

  /** What the action looks for is told apart by the renaming. */
  ghost predicate ArgsSeparated(f: Renaming, a: Action) {
    && (a.AddConstraint? || a.RemoveConstraint? ==> Separates(f, a.constraint))
    && (a.ReplaceConstraint? ==> Separates(f, a.before))
  }

  /** An inline reference that is still to be promoted points where the renaming changes nothing. */
  predicate RefsFixed(f: Renaming, cols: seq<ColumnDef>, cs: seq<TableConstraint>) {
    forall i :: 0 <= i < |cols| && cols[i].reference.Some? ==>
      HasForeignKey(cs, cols[i].name) || f(cols[i].reference.value.table) == cols[i].reference.value.table
  }

  function Retargeting(from: string, to: string): Renaming {
    (x: string) => if x == from then to else x
  }

  lemma RetargetIsMap(t: TableDef, from: string, to: string)
    ensures RetargetTable(t, from, to) == t.(constraints := MapRefs(Retargeting(from, to), t.constraints))
  {
  }

  // ---------------------------------------------------------------- lists of constraints

  lemma MapRefInjective(f: Renaming, c: TableConstraint, d: TableConstraint)
    requires Separates(f, c)
    ensures MapRef(f, c) == MapRef(f, d) <==> c == d
  {
  }

  lemma MapRefsConcat(f: Renaming, xs: seq<TableConstraint>, ys: seq<TableConstraint>)
    ensures MapRefs(f, xs + ys) == MapRefs(f, xs) + MapRefs(f, ys)
  {
  }

  lemma MapRefsCons(f: Renaming, cs: seq<TableConstraint>)
    requires cs != []
    ensures MapRefs(f, cs) == [MapRef(f, cs[0])] + MapRefs(f, cs[1..]) && MapRefs(f, cs)[1..] == MapRefs(f, cs[1..])
  {
  }

  lemma MemberMapped(f: Renaming, cs: seq<TableConstraint>, c: TableConstraint)
    requires Separates(f, c)
    ensures c in cs <==> MapRef(f, c) in MapRefs(f, cs)
  {
    if c in cs {
      var i :| 0 <= i < |cs| && cs[i] == c;
      assert MapRefs(f, cs)[i] == MapRef(f, c);
    }
    if MapRef(f, c) in MapRefs(f, cs) {
      var i :| 0 <= i < |cs| && MapRefs(f, cs)[i] == MapRef(f, c);
      MapRefInjective(f, c, cs[i]);
    }
  }

  lemma {:induction false} WithoutMapped(f: Renaming, cs: seq<TableConstraint>, c: TableConstraint)
    requires Separates(f, c)
    ensures WithoutConstraint(MapRefs(f, cs), MapRef(f, c)) == MapRefs(f, WithoutConstraint(cs, c))
  {
    if cs != [] {
      MapRefsCons(f, cs);
      MapRefInjective(f, c, cs[0]);
      WithoutMapped(f, cs[1..], c);
      MapRefsConcat(f, [cs[0]], WithoutConstraint(cs[1..], c));
    }
  }

  lemma {:induction false} ReplaceMapped(f: Renaming, cs: seq<TableConstraint>, c: TableConstraint, d: TableConstraint)
    requires Separates(f, c)
    ensures ReplaceFirst(MapRefs(f, cs), MapRef(f, c), MapRef(f, d)) == MapRefs(f, ReplaceFirst(cs, c, d))
  {
    if cs != [] {
      MapRefsCons(f, cs);
      MapRefInjective(f, c, cs[0]);
      if cs[0] == c {
        MapRefsConcat(f, [d], cs[1..]);
      } else {
        ReplaceMapped(f, cs[1..], c, d);
        MapRefsConcat(f, [cs[0]], ReplaceFirst(cs[1..], c, d));
      }
    }
  }

  lemma {:induction false} DropMapped(f: Renaming, cs: seq<TableConstraint>, column: string)
    ensures DropFromConstraints(MapRefs(f, cs), column) == MapRefs(f, DropFromConstraints(cs, column))
  {
    if cs != [] {
      MapRefsCons(f, cs);
      DropMapped(f, cs[1..], column);
      var rest := DropFromConstraints(cs[1..], column);
      if cs[0].Check? {
        MapRefsConcat(f, [cs[0]], rest);
      } else {
        MapRefsConcat(f, [cs[0].(columns := WithoutName(cs[0].columns, column))], rest);
      }
    }
  }

  lemma RenameInMapped(f: Renaming, cs: seq<TableConstraint>, from: string, to: string)
    ensures RenameInConstraints(MapRefs(f, cs), from, to) == MapRefs(f, RenameInConstraints(cs, from, to))
  {
  }

  // ---------------------------------------------------------------- promotion

  lemma {:induction false} PlainMapped(f: Renaming, cs: seq<TableConstraint>)
    ensures Plain(MapRefs(f, cs)) == Plain(cs)
  {
    if cs != [] {
      MapRefsCons(f, cs);
      PlainMapped(f, cs[1..]);
    }
  }

  lemma HasForeignKeyMapped(f: Renaming, cs: seq<TableConstraint>, column: string)
    ensures HasForeignKey(MapRefs(f, cs), column) <==> HasForeignKey(cs, column)
  {
    if HasForeignKey(cs, column) {
      var i :| 0 <= i < |cs| && cs[i].ForeignKey? && cs[i].columns == [column];
      assert MapRefs(f, cs)[i].ForeignKey? && MapRefs(f, cs)[i].columns == [column];
    }
  }

  lemma HasForeignKeyGrows(cs: seq<TableConstraint>, more: seq<TableConstraint>, column: string)
    requires HasForeignKey(cs, column)
    ensures HasForeignKey(cs + more, column)
  {
    var i :| 0 <= i < |cs| && cs[i].ForeignKey? && cs[i].columns == [column];
    assert (cs + more)[i] == cs[i];
  }

  lemma RefsFixedGrows(f: Renaming, cols: seq<ColumnDef>, cs: seq<TableConstraint>, more: seq<TableConstraint>)
    requires RefsFixed(f, cols, cs)
    ensures RefsFixed(f, cols, cs + more)
  {
    forall i | 0 <= i < |cols| && cols[i].reference.Some? && HasForeignKey(cs, cols[i].name)
      ensures HasForeignKey(cs + more, cols[i].name)
    {
      HasForeignKeyGrows(cs, more, cols[i].name);
    }
  }

  ghost predicate OwnAmong(cols: seq<ColumnDef>, k: TableConstraint) {
    exists i :: 0 <= i < |cols| && cols[i].reference.Some? && k == OwnReference(cols[i])
  }

  /** Promoting references keeps what is there, and whatever it adds is the reference of a column. */
  lemma {:induction false} ReferenceFrom(cols: seq<ColumnDef>, cs: seq<TableConstraint>, k: TableConstraint)
    ensures k in cs ==> k in WithReferences(cols, cs)
    ensures k in WithReferences(cols, cs) && k !in cs ==> OwnAmong(cols, k)
    decreases |cols|
  {
    if cols != [] {
      var c, rest := cols[0], cols[1..];
      var more := if c.reference.Some? && !HasForeignKey(cs, c.name) then cs + [OwnReference(c)] else cs;
      ReferenceFrom(rest, more, k);
      if OwnAmong(rest, k) {
        var i :| 0 <= i < |rest| && rest[i].reference.Some? && k == OwnReference(rest[i]);
        assert cols[i + 1] == rest[i];
      }
    }
  }

  lemma {:induction false} WithReferencesMapped(f: Renaming, cols: seq<ColumnDef>, cs: seq<TableConstraint>)
    requires RefsFixed(f, cols, cs)
    ensures WithReferences(cols, MapRefs(f, cs)) == MapRefs(f, WithReferences(cols, cs))
    decreases |cols|
  {
    if cols != [] {
      var c, rest := cols[0], cols[1..];
      HasForeignKeyMapped(f, cs, c.name);
      if c.reference.Some? && !HasForeignKey(cs, c.name) {
        var added := OwnReference(c);
        RefsFixedGrows(f, rest, cs, [added]);
        MapRefsConcat(f, cs, [added]);
        assert MapRefs(f, [added]) == [added];
        WithReferencesMapped(f, rest, cs + [added]);
      } else {
        WithReferencesMapped(f, rest, cs);
      }
    }
  }

  /** Columns that differ in nothing the keys, the unique constraints and the indexes are made of. */
  predicate SameMarks(a: seq<ColumnDef>, b: seq<ColumnDef>) {
    |a| == |b| && forall i :: 0 <= i < |a| ==> a[i].name == b[i].name && a[i].marks == b[i].marks
  }

  lemma {:induction false} SameMentions(kind: GroupKind, a: seq<ColumnDef>, b: seq<ColumnDef>)
    requires |a| == |b|
    requires forall i :: 0 <= i < |a| ==> a[i].name == b[i].name && GroupsOf(kind, a[i]) == GroupsOf(kind, b[i])
    ensures Mentions(kind, a) == Mentions(kind, b)
  {
    if a != [] {
      SameMentions(kind, a[..|a| - 1], b[..|b| - 1]);
    }
  }

  lemma {:induction false} SameKeyColumns(a: seq<ColumnDef>, b: seq<ColumnDef>)
    requires SameMarks(a, b)
    ensures KeyColumns(a) == KeyColumns(b)
  {
    if a != [] {
      SameKeyColumns(a[1..], b[1..]);
    }
  }

  lemma SameKeys(a: seq<ColumnDef>, b: seq<ColumnDef>, cs: seq<PlainConstraint>)
    requires SameMarks(a, b)
    ensures NewKeys(a, cs) == NewKeys(b, cs) && Mentions(Indexes, a) == Mentions(Indexes, b)
  {
    SameKeyColumns(a, b);
    SameMentions(Uniques, a, b);
    SameMentions(Indexes, a, b);
    assert AutoIncrement(a) ==> AutoIncrement(b) by {
      if i :| 0 <= i < |a| && a[i].marks.primaryKey == Some(Object(true)) {
        assert b[i].marks.primaryKey == Some(Object(true));
      }
    }
    assert AutoIncrement(b) ==> AutoIncrement(a) by {
      if i :| 0 <= i < |b| && b[i].marks.primaryKey == Some(Object(true)) {
        assert a[i].marks.primaryKey == Some(Object(true));
      }
    }
  }

  lemma {:induction false} PlainStays(f: Renaming, cs: seq<PlainConstraint>)
    ensures MapRefs(f, cs) == cs
  {
  }

  lemma PromoteMapped(f: Renaming, cols: seq<ColumnDef>, cs: seq<TableConstraint>)
    requires RefsFixed(f, cols, cs)
    ensures Promote(cols, MapRefs(f, cs)) == MapRefs(f, Promote(cols, cs))
  {
    var keys := NewKeys(cols, Plain(cs));
    PlainMapped(f, cs);
    PlainStays(f, keys);
    MapRefsConcat(f, cs, keys);
    RefsFixedGrows(f, cols, cs, keys);
    WithReferencesMapped(f, cols, cs + keys);
    var referring := WithReferences(cols, cs + keys);
    PlainMapped(f, referring);
    var indexes := Grouped(Indexes, cols, Plain(referring));
    PlainStays(f, indexes);
    MapRefsConcat(f, referring, indexes);
  }

  // ---------------------------------------------------------------- one table

  /** `u` is `t` up to its name and with its foreign keys renamed. */
  ghost predicate MappedTable(f: Renaming, t: TableDef, u: TableDef) {
    u.columns == t.columns && u.constraints == MapRefs(f, t.constraints)
  }

  ghost predicate MappedOutcome(f: Renaming, name: string, r: Result<TableDef, PlannerError>, q: Result<TableDef,
      PlannerError>) {
    (r.Ok? <==> q.Ok?) && (r.Ok? ==> MappedTable(f, r.value, q.value) && q.value.name == name)
  }

  /** An index whose name may be the generated one of a column of the table. */
  predicate AutoNamed(table: string, c: TableConstraint) {
    c.Index? && c.name.Some? && AutoIndexName(table, "") <= c.name.value
  }

  /** Removing the constraint from either table clears the same inline fields. */
  predicate ClearsAlike(x: string, y: string, c: TableConstraint) {
    x == y || (!AutoNamed(x, c) && !AutoNamed(y, c))
  }

  predicate ActionClearsAlike(table: string, a: Action) {
    && (a.RemoveConstraint? ==> ClearsAlike(a.table, table, a.constraint))
    && (a.ReplaceConstraint? ==> ClearsAlike(a.table, table, a.before))
  }

  lemma AutoNameStarts(table: string, column: string)
    ensures AutoIndexName(table, "") <= AutoIndexName(table, column)
  {
    assert AutoIndexName(table, column) == AutoIndexName(table, "") + column;
  }

  lemma ClearedAlike(x: string, y: string, cols: seq<ColumnDef>, c: TableConstraint)
    requires ClearsAlike(x, y, c)
    ensures ClearInline(x, cols, c) == ClearInline(y, cols, c)
  {
    var r, q := ClearInline(x, cols, c), ClearInline(y, cols, c);
    forall i | 0 <= i < |cols| ensures r[i] == q[i] {
      AutoNameStarts(x, cols[i].name);
      AutoNameStarts(y, cols[i].name);
    }
  }

  lemma ConstraintMapped(f: Renaming, t: TableDef, u: TableDef, a: Action, table: string)
    requires MappedTable(f, t, u) && ArgsSeparated(f, a) && ActionClearsAlike(table, a)
    requires a.AddConstraint? || a.RemoveConstraint? || a.ReplaceConstraint?
    ensures MappedOutcome(f, u.name, ApplyToTable(t, a), ApplyToTable(u, MapAction(f, table, a)))
  {
    var cs := t.constraints;
    if a.ReplaceConstraint? {
      MemberMapped(f, cs, a.before);
      ReplaceMapped(f, cs, a.before, a.after);
      ClearedAlike(a.table, table, t.columns, MapRef(f, a.before));
      ClearedReferenceAlike(f, a.table, t.columns, a.before);
    } else if a.AddConstraint? {
      MemberMapped(f, cs, a.constraint);
      MapRefsConcat(f, cs, [a.constraint]);
    } else {
      WithoutMapped(f, cs, a.constraint);
      ClearedAlike(a.table, table, t.columns, MapRef(f, a.constraint));
      ClearedReferenceAlike(f, a.table, t.columns, a.constraint);
    }
  }

  lemma ClearedReferenceAlike(f: Renaming, table: string, cols: seq<ColumnDef>, c: TableConstraint)
    ensures ClearInline(table, cols, MapRef(f, c)) == ClearInline(table, cols, c)
  {
  }

  /** A table-local action does to the renamed table, under either name, what it does to the table,
      unless it removes an index that one of the names would have generated. */
  lemma LocalMapped(f: Renaming, t: TableDef, u: TableDef, a: Action, table: string)
    requires IsTableLocal(a) && MappedTable(f, t, u) && ArgsSeparated(f, a) && ActionClearsAlike(table, a)
    requires a.AddColumn? ==> RefsFixed(f, t.columns + [a.added], t.constraints)
    ensures MappedOutcome(f, u.name, ApplyToTable(t, a), ApplyToTable(u, MapAction(f, table, a)))
  {
    var cs := t.constraints;
    if a.AddConstraint? || a.RemoveConstraint? || a.ReplaceConstraint? {
      ConstraintMapped(f, t, u, a, table);
    } else if a.AddColumn? {
      PromoteMapped(f, t.columns + [a.added], cs);
    } else if a.DeleteColumn? {
      DropMapped(f, cs, a.column);
    } else if a.RenameColumn? {
      RenameInMapped(f, cs, a.from, a.to);
    }
  }

  // ---------------------------------------------------------------- some of the constraints

  type Selection = TableConstraint -> bool

  function Filter(keep: Selection, cs: seq<TableConstraint>): seq<TableConstraint> {
    if cs == [] then [] else if keep(cs[0]) then [cs[0]] + Filter(keep, cs[1..]) else Filter(keep, cs[1..])
  }

  lemma {:induction false} FilterConcat(keep: Selection, xs: seq<TableConstraint>, ys: seq<TableConstraint>)
    ensures Filter(keep, xs + ys) == Filter(keep, xs) + Filter(keep, ys)
  {
    if xs == [] {
      assert xs + ys == ys;
    } else {
      assert (xs + ys)[1..] == xs[1..] + ys;
      FilterConcat(keep, xs[1..], ys);
    }
  }

  lemma {:induction false} FilterMember(keep: Selection, cs: seq<TableConstraint>, c: TableConstraint)
    ensures c in Filter(keep, cs) <==> c in cs && keep(c)
  {
    if cs != [] {
      FilterMember(keep, cs[1..], c);
    }
  }

  lemma {:induction false} FilterWithout(keep: Selection, cs: seq<TableConstraint>, c: TableConstraint)
    ensures Filter(keep, WithoutConstraint(cs, c)) == WithoutConstraint(Filter(keep, cs), c)
  {
    if cs != [] {
      FilterWithout(keep, cs[1..], c);
      WithoutCons(cs, c);
      if keep(cs[0]) {
        WithoutCons(Filter(keep, cs), c);
      }
    }
  }

  lemma WithoutCons(cs: seq<TableConstraint>, c: TableConstraint)
    requires cs != []
    ensures WithoutConstraint(cs, c) == if cs[0] == c then WithoutConstraint(cs[1..], c)
      else [cs[0]] + WithoutConstraint(cs[1..], c)
  {
    assert [] + WithoutConstraint(cs[1..], c) == WithoutConstraint(cs[1..], c);
  }

  /** The first occurrence of `c` gives way to `ds`. */
  function Swapped(cs: seq<TableConstraint>, c: TableConstraint, ds: seq<TableConstraint>): seq<TableConstraint> {
    if cs == [] then [] else if cs[0] == c then ds + cs[1..] else [cs[0]] + Swapped(cs[1..], c, ds)
  }

  lemma {:induction false} FilterReplace(keep: Selection, cs: seq<TableConstraint>, c: TableConstraint,
      d: TableConstraint)
    requires keep(c)
    ensures Filter(keep, ReplaceFirst(cs, c, d)) == Swapped(Filter(keep, cs), c, Filter(keep, [d]))
  {
    if cs != [] {
      if cs[0] == c {
        FilterConcat(keep, [d], cs[1..]);
      } else {
        FilterReplace(keep, cs[1..], c, d);
        FilterConcat(keep, [cs[0]], ReplaceFirst(cs[1..], c, d));
      }
    }
  }

  lemma {:induction false} FilterDrop(keep: Selection, cs: seq<TableConstraint>, column: string)
    requires forall c: TableConstraint :: !c.Check? && WithoutName(c.columns, column) != [] ==>
               keep(c.(columns := WithoutName(c.columns, column))) == keep(c)
    ensures Filter(keep, DropFromConstraints(cs, column)) == DropFromConstraints(Filter(keep, cs), column)
  {
    if cs != [] {
      FilterDrop(keep, cs[1..], column);
      assert keep(cs[0]) ==> Filter(keep, cs)[1..] == Filter(keep, cs[1..]);
    }
  }

  lemma {:induction false} FilterRename(keep: Selection, cs: seq<TableConstraint>, from: string, to: string)
    requires forall c :: keep(RenameInConstraint(c, from, to)) == keep(c)
    ensures Filter(keep, RenameInConstraints(cs, from, to)) == RenameInConstraints(Filter(keep, cs), from, to)
  {
    if cs != [] {
      RenameInCons(cs, from, to);
      FilterRename(keep, cs[1..], from, to);
      if keep(cs[0]) {
        RenameInCons(Filter(keep, cs), from, to);
      }
    }
  }

  lemma RenameInCons(cs: seq<TableConstraint>, from: string, to: string)
    requires cs != []
    ensures RenameInConstraints(cs, from, to) == [RenameInConstraint(cs[0], from, to)]
      + RenameInConstraints(cs[1..], from, to)
  {
  }

  lemma {:induction false} FilterMapped(keep: Selection, f: Renaming, cs: seq<TableConstraint>)
    requires forall c :: keep(MapRef(f, c)) == keep(c)
    ensures Filter(keep, MapRefs(f, cs)) == MapRefs(f, Filter(keep, cs))
  {
    if cs != [] {
      MapRefsCons(f, cs);
      FilterMapped(keep, f, cs[1..]);
      if keep(cs[0]) {
        MapRefsConcat(f, [cs[0]], Filter(keep, cs[1..]));
      }
    }
  }
}
