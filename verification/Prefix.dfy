/** Prefixing every table name of a history, and how replay commutes with it. */
module Prefix {
  import opened Common
  import opened Schema
  import opened ColumnView
  import opened References

  function PrefixName(p: string, t: string): (r: string)
    ensures r == p + t
  {
    if p == "" then t else p + t
  }

  function PrefixConstraint(p: string, c: TableConstraint): TableConstraint {
    if p != "" && c.ForeignKey? then c.(refTable := PrefixName(p, c.refTable)) else c
  }

  function PrefixConstraints(p: string, cs: seq<TableConstraint>): seq<TableConstraint> {
    seq(|cs|, i requires 0 <= i < |cs| => PrefixConstraint(p, cs[i]))
  }

  /** The three dispatchers of the source. The last arm leaves `RemapEnumValues` as it is. */
  function PrefixAction(p: string, a: Action): Action {
    if p == "" then a else
    match a
    case CreateTable(t, cols, cs) => CreateTable(PrefixName(p, t), cols, PrefixConstraints(p, cs))
    case DeleteTable(t) => DeleteTable(PrefixName(p, t))
    case RenameTable(from, to) => RenameTable(PrefixName(p, from), PrefixName(p, to))
    case AddColumn(t, c) => AddColumn(PrefixName(p, t), c)
    case DeleteColumn(t, c) => DeleteColumn(PrefixName(p, t), c)
    case RenameColumn(t, from, to) => RenameColumn(PrefixName(p, t), from, to)
    case ModifyColumnType(t, c, ty) => ModifyColumnType(PrefixName(p, t), c, ty)
    case ModifyColumnNullable(t, c, n) => ModifyColumnNullable(PrefixName(p, t), c, n)
    case ModifyColumnDefault(t, c, d) => ModifyColumnDefault(PrefixName(p, t), c, d)
    case ModifyColumnComment(t, c, d) => ModifyColumnComment(PrefixName(p, t), c, d)
    case AddConstraint(t, c) => AddConstraint(PrefixName(p, t), PrefixConstraint(p, c))
    case RemoveConstraint(t, c) => RemoveConstraint(PrefixName(p, t), PrefixConstraint(p, c))
    case ReplaceConstraint(t, c, d) =>
      ReplaceConstraint(PrefixName(p, t), PrefixConstraint(p, c), PrefixConstraint(p, d))
    case RemapEnumValues(_, _, _) => a
    case RawSql(_) => a
    case DataMigration(_) => a
  }

  function PrefixActions(p: string, actions: seq<Action>): seq<Action> {
    seq(|actions|, i requires 0 <= i < |actions| => PrefixAction(p, actions[i]))
  }

  function PrefixPlan(p: string, plan: Plan): Plan {
    if p == "" then plan else plan.(actions := PrefixActions(p, plan.actions))
  }

  function PrefixPlans(p: string, plans: seq<Plan>): seq<Plan> {
    seq(|plans|, i requires 0 <= i < |plans| => PrefixPlan(p, plans[i]))
  }

  // ---------------------------------------------------------------- composition

  lemma PrefixConstraintTwice(p: string, q: string, c: TableConstraint)
    ensures PrefixConstraint(q, PrefixConstraint(p, c)) == PrefixConstraint(q + p, c)
  {
    if c.ForeignKey? {
      assert q + (p + c.refTable) == (q + p) + c.refTable;
      assert p == "" ==> q + p == q;
      assert q == "" ==> q + p == p;
    }
  }

  /** Prefixing by `p` and then by `q` is prefixing by `q + p`, on every action. */
  lemma PrefixTwice(p: string, q: string, a: Action)
    ensures PrefixAction(q, PrefixAction(p, a)) == PrefixAction(q + p, a)
  {
    assert p == "" ==> q + p == q;
    assert q == "" ==> q + p == p;
    forall c ensures PrefixConstraint(q, PrefixConstraint(p, c)) == PrefixConstraint(q + p, c) {
      PrefixConstraintTwice(p, q, c);
    }
    match a {
      case CreateTable(t, cols, cs) =>
        assert q + (p + t) == (q + p) + t;
        assert PrefixConstraints(q, PrefixConstraints(p, cs)) == PrefixConstraints(q + p, cs);
      case RenameTable(from, to) =>
        assert q + (p + from) == (q + p) + from && q + (p + to) == (q + p) + to;
      case RemapEnumValues(_, _, _) =>
      case RawSql(_) =>
      case DataMigration(_) =>
      case _ => assert q + (p + a.table) == (q + p) + a.table;
    }
  }

  // ---------------------------------------------------------------- commutation on schemas

  predicate NoReferences(cols: seq<ColumnDef>) {
    forall i :: 0 <= i < |cols| ==> cols[i].reference.None?
  }

  /** `w` is `s` with every table name prefixed. With `exact` no column has an inline foreign key and
      every foreign key is prefixed; without it the other constraints are the same. */
  ghost predicate Related(p: string, exact: bool, s: seq<TableDef>, w: seq<TableDef>) {
    && |s| == |w|
    && forall i :: 0 <= i < |s| ==> RelatedTable(p, exact, s[i], w[i])
  }

  ghost predicate RelatedTable(p: string, exact: bool, t: TableDef, u: TableDef) {
    && u.name == p + t.name
    && u.columns == t.columns
    && if exact then NoReferences(t.columns) && u.constraints == PrefixConstraints(p, t.constraints)
       else Plain(u.constraints) == Plain(t.constraints)
  }

  lemma PrefixInjective(p: string, x: string, y: string)
    requires p + x == p + y
    ensures x == y
  {
    assert (p + x)[|p|..] == x && (p + y)[|p|..] == y;
  }

  ghost predicate PrefixedNames(p: string, s: seq<TableDef>, w: seq<TableDef>) {
    |s| == |w| && forall i :: 0 <= i < |s| ==> w[i].name == p + s[i].name
  }

  lemma FindNamed(p: string, s: seq<TableDef>, w: seq<TableDef>, name: string)
    requires PrefixedNames(p, s, w)
    ensures FindTable(w, p + name) == FindTable(s, name)
  {
    var i, j := FindTable(s, name), FindTable(w, p + name);
    if j < |w| {
      PrefixInjective(p, s[j].name, name);
    }
  }

  lemma FindPrefixed(p: string, exact: bool, s: seq<TableDef>, w: seq<TableDef>, name: string)
    requires Related(p, exact, s, w)
    ensures FindTable(w, p + name) == FindTable(s, name)
  {
    FindNamed(p, s, w, name);
  }

  lemma RelatedCons(p: string, exact: bool, t: TableDef, u: TableDef, s: seq<TableDef>, w: seq<TableDef>)
    requires RelatedTable(p, exact, t, u) && Related(p, exact, s, w)
    ensures Related(p, exact, [t] + s, [u] + w)
  {
  }

  lemma {:induction false} WithoutPrefixed(p: string, exact: bool, s: seq<TableDef>, w: seq<TableDef>, name: string)
    requires Related(p, exact, s, w)
    ensures Related(p, exact, WithoutTable(s, name), WithoutTable(w, p + name))
  {
    if s != [] {
      assert RelatedTable(p, exact, s[0], w[0]);
      var s1, w1 := WithoutTable(s[1..], name), WithoutTable(w[1..], p + name);
      WithoutPrefixed(p, exact, s[1..], w[1..], name);
      if w[0].name == p + name {
        PrefixInjective(p, s[0].name, name);
        assert WithoutTable(s, name) == s1 && WithoutTable(w, p + name) == w1;
      } else {
        assert s[0].name != name;
        assert WithoutTable(s, name) == [s[0]] + s1 && WithoutTable(w, p + name) == [w[0]] + w1;
        RelatedCons(p, exact, s[0], w[0], s1, w1);
      }
    }
  }

  // ---------------------------------------------------------------- constraints that are not foreign keys

  predicate NotForeign(c: TableConstraint) {
    !c.ForeignKey?
  }

  lemma {:induction false} PlainIsFilter(cs: seq<TableConstraint>)
    ensures Plain(cs) == Filter(NotForeign, cs)
  {
    if cs != [] {
      PlainIsFilter(cs[1..]);
    }
  }

  lemma PlainConcat(xs: seq<TableConstraint>, ys: seq<TableConstraint>)
    ensures Plain(xs + ys) == Plain(xs) + Plain(ys)
  {
    PlainIsFilter(xs);
    PlainIsFilter(ys);
    PlainIsFilter(xs + ys);
    FilterConcat(NotForeign, xs, ys);
  }

  lemma {:induction false} PlainIdentity(cs: seq<PlainConstraint>)
    ensures Plain(cs) == cs
  {
    if cs != [] {
      PlainIdentity(cs[1..]);
    }
  }

  lemma {:induction false} PlainReferences(cols: seq<ColumnDef>, cs: seq<TableConstraint>)
    ensures Plain(WithReferences(cols, cs)) == Plain(cs)
    decreases |cols|
  {
    if cols != [] {
      var c := cols[0];
      if c.reference.Some? && !HasForeignKey(cs, c.name) {
        var added := OwnReference(c);
        PlainConcat(cs, [added]);
        PlainReferences(cols[1..], cs + [added]);
      } else {
        PlainReferences(cols[1..], cs);
      }
    }
  }

  lemma PlainPromote(cols: seq<ColumnDef>, cs: seq<TableConstraint>)
    ensures var keyed := Plain(cs) + NewKeys(cols, Plain(cs));
      Plain(Promote(cols, cs)) == keyed + Grouped(Indexes, cols, keyed)
  {
    var keys := NewKeys(cols, Plain(cs));
    PlainConcat(cs, keys);
    PlainIdentity(keys);
    PlainReferences(cols, cs + keys);
    var referring := WithReferences(cols, cs + keys);
    var indexes := Grouped(Indexes, cols, Plain(referring));
    PlainConcat(referring, indexes);
    PlainIdentity(indexes);
  }

  /** What a table-local action makes of the other constraints depends on the other constraints and
      the columns alone. */
  lemma PlainLocal(t: TableDef, u: TableDef, a: Action, b: Action)
    requires IsTableLocal(a) && IsTableLocal(b) && u.columns == t.columns
    requires Plain(u.constraints) == Plain(t.constraints)
    requires (exists f: Renaming :: b == MapAction(f, b.table, a)) && ActionClearsAlike(b.table, a)
    requires a.ReplaceConstraint? ==> !a.before.ForeignKey?
    ensures
      var r, q := ApplyToTable(t, a), ApplyToTable(u, b);
      && (r.Ok? <==> q.Ok?)
      && (r.Ok? ==>
            && q.value.name == u.name && q.value.columns == r.value.columns
            && Plain(q.value.constraints) == Plain(r.value.constraints))
  {
    if a.AddConstraint? || a.RemoveConstraint? || a.ReplaceConstraint? {
      PlainConstraintAction(t, u, a, b);
    } else if a.AddColumn? {
      PlainPromote(t.columns + [a.added], t.constraints);
      PlainPromote(t.columns + [a.added], u.constraints);
    } else if a.DeleteColumn? {
      PlainDrop(t.constraints, a.column);
      PlainDrop(u.constraints, a.column);
    } else if a.RenameColumn? {
      PlainRename(t.constraints, a.from, a.to);
      PlainRename(u.constraints, a.from, a.to);
    }
  }

  lemma PlainDrop(cs: seq<TableConstraint>, column: string)
    ensures Plain(DropFromConstraints(cs, column)) == DropFromConstraints(Plain(cs), column)
  {
    PlainIsFilter(cs);
    PlainIsFilter(DropFromConstraints(cs, column));
    FilterDrop(NotForeign, cs, column);
  }

  lemma PlainRename(cs: seq<TableConstraint>, from: string, to: string)
    ensures Plain(RenameInConstraints(cs, from, to)) == RenameInConstraints(Plain(cs), from, to)
  {
    PlainIsFilter(cs);
    PlainIsFilter(RenameInConstraints(cs, from, to));
    FilterRename(NotForeign, cs, from, to);
  }

  lemma PlainReplace(cs: seq<TableConstraint>, c: TableConstraint, d: TableConstraint)
    requires !c.ForeignKey?
    ensures c in cs <==> c in Plain(cs)
    ensures Plain(ReplaceFirst(cs, c, d)) == Swapped(Plain(cs), c, Plain([d]))
  {
    PlainIsFilter(cs);
    PlainIsFilter([d]);
    PlainIsFilter(ReplaceFirst(cs, c, d));
    FilterMember(NotForeign, cs, c);
    FilterReplace(NotForeign, cs, c, d);
  }

  lemma PlainWithout(cs: seq<TableConstraint>, c: TableConstraint)
    ensures Plain(WithoutConstraint(cs, c)) == WithoutConstraint(Plain(cs), c)
  {
    PlainIsFilter(cs);
    PlainIsFilter(WithoutConstraint(cs, c));
    FilterWithout(NotForeign, cs, c);
  }

  lemma {:induction false} NoForeignKeyToRemove(cs: seq<PlainConstraint>, c: TableConstraint)
    requires c.ForeignKey?
    ensures WithoutConstraint(cs, c) == cs
  {
    if cs != [] {
      NoForeignKeyToRemove(cs[1..], c);
    }
  }

  lemma PlainConstraintAction(t: TableDef, u: TableDef, a: Action, b: Action)
    requires (a.AddConstraint? || a.RemoveConstraint? || a.ReplaceConstraint?) && IsTableLocal(b)
    requires u.columns == t.columns && Plain(u.constraints) == Plain(t.constraints)
    requires (exists f: Renaming :: b == MapAction(f, b.table, a)) && ActionClearsAlike(b.table, a)
    requires a.ReplaceConstraint? ==> !a.before.ForeignKey?
    ensures
      var r, q := ApplyToTable(t, a), ApplyToTable(u, b);
      && (r.Ok? <==> q.Ok?)
      && (r.Ok? ==>
            && q.value.name == u.name && q.value.columns == r.value.columns
            && Plain(q.value.constraints) == Plain(r.value.constraints))
  {
    var f: Renaming :| b == MapAction(f, b.table, a);
    var cs, ds := t.constraints, u.constraints;
    if a.ReplaceConstraint? {
      PlainReplace(cs, a.before, a.after);
      PlainReplace(ds, a.before, b.after);
      ClearedAlike(a.table, b.table, t.columns, a.before);
    } else if a.AddConstraint? {
      PlainAdd(cs, ds, a.constraint, b.constraint);
    } else {
      PlainRemove(cs, ds, a.constraint, b.constraint);
      ClearedAlike(a.table, b.table, t.columns, a.constraint);
      ClearedReferenceAlike(f, b.table, t.columns, a.constraint);
    }
  }

  lemma PlainAdd(cs: seq<TableConstraint>, ds: seq<TableConstraint>, c: TableConstraint, d: TableConstraint)
    requires Plain(cs) == Plain(ds) && if c.ForeignKey? then d.ForeignKey? else d == c
    ensures Plain(if c in cs then cs else cs + [c]) == Plain(if d in ds then ds else ds + [d])
  {
    PlainConcat(cs, [c]);
    PlainConcat(ds, [d]);
    if !c.ForeignKey? {
      PlainReplace(cs, c, c);
      PlainReplace(ds, c, c);
    }
  }

  lemma PlainRemove(cs: seq<TableConstraint>, ds: seq<TableConstraint>, c: TableConstraint, d: TableConstraint)
    requires Plain(cs) == Plain(ds) && if c.ForeignKey? then d.ForeignKey? else d == c
    ensures Plain(WithoutConstraint(cs, c)) == Plain(WithoutConstraint(ds, d))
  {
    PlainWithout(cs, c);
    PlainWithout(ds, d);
    if c.ForeignKey? {
      NoForeignKeyToRemove(Plain(cs), c);
      NoForeignKeyToRemove(Plain(ds), d);
    }
  }

  // ---------------------------------------------------------------- one action

  function Prefixing(p: string): Renaming {
    (x: string) => p + x
  }

  lemma PrefixIsMap(p: string, cs: seq<TableConstraint>)
    ensures PrefixConstraints(p, cs) == MapRefs(Prefixing(p), cs)
  {
    assert p == "" ==> forall x: string :: p + x == x;
  }

  lemma PrefixSeparates(p: string, c: TableConstraint)
    ensures Separates(Prefixing(p), c)
  {
    if c.ForeignKey? {
      forall x | p + x == p + c.refTable ensures x == c.refTable {
        PrefixInjective(p, x, c.refTable);
      }
    }
  }

  lemma PrefixActionIsMap(p: string, a: Action)
    requires IsTableLocal(a) && !a.RemapEnumValues?
    ensures PrefixAction(p, a) == MapAction(Prefixing(p), p + a.table, a)
  {
    assert p == "" ==> forall x: string :: p + x == x;
  }

  ghost predicate SameOutcome(p: string, exact: bool, r: Result<seq<TableDef>, PlannerError>,
      q: Result<seq<TableDef>, PlannerError>)
  {
    (r.Ok? <==> q.Ok?) && (r.Ok? ==> Related(p, exact, r.value, q.value))
  }

  predicate NoReference(a: Action) {
    && (a.CreateTable? ==> NoReferences(a.columns))
    && (a.AddColumn? ==> a.added.reference.None?)
  }

  /** Actions the prefix reaches: no index that goes is named as one generated for its table, before or
      after prefixing, and a replaced foreign key needs a history without inline ones. */
  predicate Covered(p: string, exact: bool, a: Action) {
    && !a.RemapEnumValues?
    && (IsTableLocal(a) ==> ActionClearsAlike(p + a.table, a))
    && (exact ==> NoReference(a))
    && (a.ReplaceConstraint? ==> exact || !a.before.ForeignKey?)
  }

  lemma TablePrefixed(p: string, exact: bool, t: TableDef, u: TableDef, a: Action)
    requires RelatedTable(p, exact, t, u) && IsTableLocal(a) && Covered(p, exact, a)
    ensures IsTableLocal(PrefixAction(p, a)) && PrefixAction(p, a).table == p + a.table
    ensures
      var r, q := ApplyToTable(t, a), ApplyToTable(u, PrefixAction(p, a));
      (r.Ok? <==> q.Ok?) && (r.Ok? ==> RelatedTable(p, exact, r.value, q.value))
  {
    PrefixActionIsMap(p, a);
    if exact {
      ExactTablePrefixed(p, t, u, a);
    } else {
      PlainLocal(t, u, a, PrefixAction(p, a));
    }
  }

  lemma ExactTablePrefixed(p: string, t: TableDef, u: TableDef, a: Action)
    requires RelatedTable(p, true, t, u) && IsTableLocal(a) && Covered(p, true, a)
    ensures
      var r, q := ApplyToTable(t, a), ApplyToTable(u, MapAction(Prefixing(p), p + a.table, a));
      (r.Ok? <==> q.Ok?) && (r.Ok? ==> RelatedTable(p, true, r.value, q.value))
  {
    var f := Prefixing(p);
    PrefixIsMap(p, t.constraints);
    if a.AddConstraint? || a.RemoveConstraint? {
      PrefixSeparates(p, a.constraint);
    } else if a.ReplaceConstraint? {
      PrefixSeparates(p, a.before);
    }
    LocalMapped(f, t, u, a, p + a.table);
    var r := ApplyToTable(t, a);
    if r.Ok? {
      PrefixIsMap(p, r.value.constraints);
      StillNoReferences(t, a);
    }
  }

  lemma StillNoReferences(t: TableDef, a: Action)
    requires IsTableLocal(a) && NoReferences(t.columns) && NoReference(a) && ApplyToTable(t, a).Ok?
    ensures NoReferences(ApplyToTable(t, a).value.columns)
  {
    var r := ApplyToTable(t, a).value;
    if a.DeleteColumn? {
      forall i | 0 <= i < |r.columns| ensures r.columns[i].reference.None? {
        assert r.columns[i] in t.columns;
      }
    } else if a.RemoveConstraint? || a.ReplaceConstraint? {
      var k := if a.RemoveConstraint? then a.constraint else a.before;
      assert r.columns == ClearInline(a.table, t.columns, k);
    }
  }

  lemma RetargetPrefixed(p: string, c: TableConstraint, from: string, to: string)
    ensures RetargetConstraint(PrefixConstraint(p, c), p + from, p + to) ==
      PrefixConstraint(p, RetargetConstraint(c, from, to))
  {
    assert p == "" ==> forall x: string :: p + x == x;
    if c.ForeignKey? && p + c.refTable == p + from {
      PrefixInjective(p, c.refTable, from);
    }
  }

  lemma RetargetRelated(p: string, exact: bool, t: TableDef, u: TableDef, from: string, to: string)
    requires RelatedTable(p, exact, t, u)
    ensures RelatedTable(p, exact, RetargetTable(t, from, to), RetargetTable(u, p + from, p + to))
  {
    if exact {
      forall i | 0 <= i < |t.constraints|
        ensures RetargetConstraint(PrefixConstraint(p, t.constraints[i]), p + from, p + to)
             == PrefixConstraint(p, RetargetConstraint(t.constraints[i], from, to))
      {
        RetargetPrefixed(p, t.constraints[i], from, to);
      }
    } else {
      RetargetIsMap(t, from, to);
      RetargetIsMap(u, p + from, p + to);
      PlainMapped(Retargeting(from, to), t.constraints);
      PlainMapped(Retargeting(p + from, p + to), u.constraints);
    }
  }

  lemma RenameTablePrefixed(p: string, exact: bool, s: seq<TableDef>, w: seq<TableDef>, from: string, to: string)
    requires Related(p, exact, s, w)
    ensures SameOutcome(p, exact, ApplyAction(s, RenameTable(from, to)), ApplyAction(w, RenameTable(p + from, p + to)))
  {
    FindPrefixed(p, exact, s, w, from);
    FindPrefixed(p, exact, s, w, to);
    var r, q := ApplyAction(s, RenameTable(from, to)), ApplyAction(w, RenameTable(p + from, p + to));
    if r.Ok? {
      var i := FindTable(s, from);
      var s1, w1 := s[i := s[i].(name := to)], w[i := w[i].(name := p + to)];
      forall j | 0 <= j < |s| ensures RelatedTable(p, exact, r.value[j], q.value[j]) {
        assert RelatedTable(p, exact, s[j], w[j]);
        RetargetRelated(p, exact, s1[j], w1[j], from, to);
      }
    }
  }

  lemma StepPrefixed(p: string, exact: bool, s: seq<TableDef>, w: seq<TableDef>, a: Action)
    requires Related(p, exact, s, w) && Covered(p, exact, a)
    ensures SameOutcome(p, exact, ApplyAction(s, a), ApplyAction(w, PrefixAction(p, a)))
  {
    if IsTableLocal(a) {
      LocalStepPrefixed(p, exact, s, w, a);
    } else if a.CreateTable? {
      CreatePrefixed(p, exact, s, w, a);
    } else if a.DeleteTable? {
      assert PrefixAction(p, a) == DeleteTable(p + a.table) by { assert p == "" ==> p + a.table == a.table; }
      WithoutPrefixed(p, exact, s, w, a.table);
    } else if a.RenameTable? {
      assert p == "" ==> p + a.from == a.from && p + a.to == a.to;
      RenameTablePrefixed(p, exact, s, w, a.from, a.to);
    }
  }

  lemma LocalStepPrefixed(p: string, exact: bool, s: seq<TableDef>, w: seq<TableDef>, a: Action)
    requires Related(p, exact, s, w) && Covered(p, exact, a) && IsTableLocal(a)
    ensures SameOutcome(p, exact, ApplyAction(s, a), ApplyAction(w, PrefixAction(p, a)))
  {
    FindPrefixed(p, exact, s, w, a.table);
    var i := FindTable(s, a.table);
    if i < |s| {
      TablePrefixed(p, exact, s[i], w[i], a);
    } else if p != "" {
      assert PrefixAction(p, a).table == p + a.table;
    }
    assert p == "" ==> p + a.table == a.table;
  }

  lemma PromotePrefixed(p: string, exact: bool, cols: seq<ColumnDef>, cs: seq<TableConstraint>)
    requires exact ==> NoReferences(cols)
    ensures
      var t, u := Promote(cols, cs), Promote(cols, PrefixConstraints(p, cs));
      if exact then u == PrefixConstraints(p, t) else Plain(u) == Plain(t)
  {
    var f := Prefixing(p);
    PrefixIsMap(p, cs);
    if exact {
      PromoteMapped(f, cols, cs);
      PrefixIsMap(p, Promote(cols, cs));
    } else {
      PlainMapped(f, cs);
      PlainPromote(cols, cs);
      PlainPromote(cols, MapRefs(f, cs));
    }
  }

  lemma CreatePrefixed(p: string, exact: bool, s: seq<TableDef>, w: seq<TableDef>, a: Action)
    requires Related(p, exact, s, w) && a.CreateTable? && Covered(p, exact, a)
    ensures SameOutcome(p, exact, ApplyAction(s, a), ApplyAction(w, PrefixAction(p, a)))
  {
    FindPrefixed(p, exact, s, w, a.table);
    CreateUnderPrefix(p, a);
    PromotePrefixed(p, exact, a.columns, a.constraints);
  }

  lemma CreateUnderPrefix(p: string, a: Action)
    requires a.CreateTable?
    ensures PrefixAction(p, a) == CreateTable(p + a.table, a.columns, PrefixConstraints(p, a.constraints))
  {
    assert p == "" ==> p + a.table == a.table && PrefixConstraints(p, a.constraints) == a.constraints;
  }

  lemma {:induction false} ReplayPrefixed(p: string, exact: bool, s: seq<TableDef>, w: seq<TableDef>,
      actions: seq<Action>)
    requires Related(p, exact, s, w)
    requires forall i :: 0 <= i < |actions| ==> Covered(p, exact, actions[i])
    ensures SameOutcome(p, exact, Replay(s, actions), Replay(w, PrefixActions(p, actions)))
    decreases |actions|
  {
    if actions != [] {
      StepPrefixed(p, exact, s, w, actions[0]);
      assert PrefixActions(p, actions)[1..] == PrefixActions(p, actions[1..]);
      var r, q := ApplyAction(s, actions[0]), ApplyAction(w, PrefixAction(p, actions[0]));
      if r.Ok? {
        ReplayPrefixed(p, exact, r.value, q.value, actions[1..]);
      }
    }
  }

  lemma {:induction false} AllActionsPrefixed(p: string, plans: seq<Plan>)
    ensures AllActions(PrefixPlans(p, plans)) == PrefixActions(p, AllActions(plans))
  {
    if plans != [] {
      AllActionsPrefixed(p, plans[1..]);
      assert PrefixPlans(p, plans)[1..] == PrefixPlans(p, plans[1..]);
      assert PrefixPlan(p, plans[0]).actions == PrefixActions(p, plans[0].actions);
    }
  }

  /** The view with every table key prefixed. */
  function PrefixView(p: string, v: View): View {
    map k | k in (set t | t in v :: p + t) :: v[k[|p|..]]
  }

  lemma PrefixViewAt(p: string, v: View, t: string)
    ensures p + t in PrefixView(p, v) <==> t in v
    ensures t in v ==> PrefixView(p, v)[p + t] == v[t]
  {
    assert (p + t)[|p|..] == t;
    if p + t in PrefixView(p, v) {
      var u :| u in v && p + t == p + u;
      PrefixInjective(p, t, u);
    }
  }

  lemma RelatedViewAt(p: string, exact: bool, s: seq<TableDef>, w: seq<TableDef>, t: string)
    requires Related(p, exact, s, w)
    ensures p + t in ViewSchema(w) <==> t in ViewSchema(s)
    ensures t in ViewSchema(s) ==> ViewSchema(w)[p + t] == ViewSchema(s)[t]
  {
    FindPrefixed(p, exact, s, w, t);
    var i := FindTable(s, t);
    assert t in TableNames(s) <==> i < |s|;
    assert p + t in TableNames(w) <==> i < |w|;
    if i < |s| {
      assert RelatedTable(p, exact, s[i], w[i]);
    }
  }

  lemma RelatedViews(p: string, exact: bool, s: seq<TableDef>, w: seq<TableDef>)
    requires Related(p, exact, s, w)
    ensures ViewSchema(w) == PrefixView(p, ViewSchema(s))
  {
    var v := ViewSchema(s);
    forall k | k in ViewSchema(w) ensures k in PrefixView(p, v) {
      var i :| 0 <= i < |w| && w[i].name == k;
      assert RelatedTable(p, exact, s[i], w[i]);
      assert s[i].name in TableNames(s);
      PrefixViewAt(p, v, s[i].name);
    }
    forall k | k in PrefixView(p, v) ensures k in ViewSchema(w) && ViewSchema(w)[k] == PrefixView(p, v)[k] {
      var t :| t in v && k == p + t;
      RelatedViewAt(p, exact, s, w, t);
      PrefixViewAt(p, v, t);
    }
  }

  /** Replaying a prefixed history succeeds exactly when replaying the history does, and yields the
      same view under prefixed keys. A replaced foreign key is covered when no column of the history
      has an inline one; then the foreign keys correspond as well. */
  lemma HistoryPrefixed(p: string, exact: bool, plans: seq<Plan>)
    requires forall i :: 0 <= i < |AllActions(plans)| ==> Covered(p, exact, AllActions(plans)[i])
    ensures
      var r, q := Replay([], AllActions(plans)), Replay([], AllActions(PrefixPlans(p, plans)));
      SameOutcome(p, exact, r, q) && (r.Ok? ==> ViewSchema(q.value) == PrefixView(p, ViewSchema(r.value)))
  {
    AllActionsPrefixed(p, plans);
    ReplayPrefixed(p, exact, [], [], AllActions(plans));
    var r, q := Replay([], AllActions(plans)), Replay([], AllActions(PrefixPlans(p, plans)));
    if r.Ok? {
      RelatedViews(p, exact, r.value, q.value);
    }
  }

  // ---------------------------------------------------------------- one action on views

  ghost predicate CommutesOnViews(p: string, a: Action) {
    forall v :: ViewStep(PrefixView(p, v), PrefixAction(p, a)) ==
                match ViewStep(v, a) case None => None case Some(w) => Some(PrefixView(p, w))
  }

  lemma PrefixViewPut(p: string, v: View, t: string, m: Cols)
    ensures PrefixView(p, v[t := m]) == PrefixView(p, v)[p + t := m]
    ensures PrefixView(p, v - {t}) == PrefixView(p, v) - {p + t}
  {
    forall k ensures k in PrefixView(p, v[t := m]) <==> k in PrefixView(p, v)[p + t := m]
             ensures k in PrefixView(p, v - {t}) <==> k in PrefixView(p, v) - {p + t}
    {
      if |p| <= |k| && k == p + k[|p|..] {
        PrefixViewAt(p, v, k[|p|..]);
        PrefixViewAt(p, v[t := m], k[|p|..]);
        PrefixViewAt(p, v - {t}, k[|p|..]);
      }
      assert forall u :: (p + u)[|p|..] == u;
    }
  }

  /** A non-empty prefix commutes with an action's step on every view exactly when the action is
      not `RemapEnumValues`, whose table the prefix leaves unchanged. */
  lemma OnlyRemapMisses(p: string, a: Action)
    requires p != ""
    ensures CommutesOnViews(p, a) <==> !a.RemapEnumValues?
  {
    if a.RemapEnumValues? {
      var v: View := map[a.table := map[a.column := ColView(Simple("integer"), true, None)]];
      assert ViewStep(v, a).Some?;
      assert |a.table| < |p + a.table|;
      assert ViewStep(PrefixView(p, v), PrefixAction(p, a)).None?;
    } else {
      forall v ensures ViewStep(PrefixView(p, v), PrefixAction(p, a)) ==
                       match ViewStep(v, a) case None => None case Some(w) => Some(PrefixView(p, w))
      {
        StepOnPrefixedView(p, v, a);
      }
    }
  }

  lemma StepOnPrefixedView(p: string, v: View, a: Action)
    requires p != "" && !a.RemapEnumValues?
    ensures ViewStep(PrefixView(p, v), PrefixAction(p, a)) ==
            match ViewStep(v, a) case None => None case Some(w) => Some(PrefixView(p, w))
  {
    if IsTableLocal(a) {
      PrefixViewAt(p, v, a.table);
      LocalPrefixed(p, a);
      if a.table in v {
        var m := ColStep(v[a.table], a);
        if m.Some? {
          PrefixViewPut(p, v, a.table, m.value);
        }
        assert ColStep(v[a.table], PrefixAction(p, a)) == m;
      }
    } else if a.RenameTable? {
      PrefixViewAt(p, v, a.from);
      PrefixViewAt(p, v, a.to);
      if a.from in v {
        PrefixViewPut(p, v - {a.from}, a.to, v[a.from]);
        PrefixViewPut(p, v, a.from, v[a.from]);
      }
    } else if a.CreateTable? || a.DeleteTable? {
      PrefixViewAt(p, v, a.table);
      PrefixViewPut(p, v, a.table, if a.CreateTable? then ColsOf(a.columns) else map[]);
    }
  }

  lemma LocalPrefixed(p: string, a: Action)
    requires p != "" && IsTableLocal(a) && !a.RemapEnumValues?
    ensures IsTableLocal(PrefixAction(p, a)) && PrefixAction(p, a).table == p + a.table
    ensures forall m :: ColStep(m, PrefixAction(p, a)) == ColStep(m, a)
  {
  }
}
