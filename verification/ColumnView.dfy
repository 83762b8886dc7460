/** The column view of a schema (table to column to type, nullability and rendered default), the
    step each action takes on it, and the proof that replay refines those steps. Column order,
    comments, inline flags and constraints are outside the view. */
module ColumnView {
  import opened Common
  import opened Schema

  datatype ColView = ColView(ty: ColumnType, nullable: bool, default: Option<string>)

  type Cols = map<string, ColView>
  type View = map<string, Cols>

  function ViewOf(c: ColumnDef): ColView {
    ColView(c.ty, c.nullable, RenderDefault(c.default))
  }

  ghost predicate DistinctNames(cols: seq<ColumnDef>) {
    forall i, j :: 0 <= i < j < |cols| ==> cols[i].name != cols[j].name
  }

  function ColNames(cols: seq<ColumnDef>): set<string> {
    set i | 0 <= i < |cols| :: cols[i].name
  }

  function ColsOf(cols: seq<ColumnDef>): Cols {
    map n | n in ColNames(cols) :: ViewOf(cols[FindColumn(cols, n)])
  }

  function TableNames(s: seq<TableDef>): set<string> {
    set i | 0 <= i < |s| :: s[i].name
  }

  function ViewSchema(s: seq<TableDef>): View {
    map n | n in TableNames(s) :: ColsOf(s[FindTable(s, n)].columns)
  }

  ghost predicate WfTable(t: TableDef) {
    DistinctNames(t.columns) && AllInlineOk(t.columns)
  }

  /** What the validators guarantee of a schema: distinct tables, distinct columns, sound inline fields. */
  ghost predicate Wf(s: seq<TableDef>) {
    && (forall i, j :: 0 <= i < j < |s| ==> s[i].name != s[j].name)
    && (forall i :: 0 <= i < |s| ==> WfTable(s[i]))
  }

  // ---------------------------------------------------------------- steps on the view

  function EditView(c: ColView, a: Action): ColView
    requires IsColumnEdit(a)
  {
    match a
    case ModifyColumnType(_, _, ty) => c.(ty := ty)
    case ModifyColumnNullable(_, _, nullable) => c.(nullable := nullable)
    case ModifyColumnDefault(_, _, d) =>
      c.(default := RenderDefault(if d.None? then None else Some(StringDefault(d.value))))
    case ModifyColumnComment(_, _, _) => c
    case RemapEnumValues(_, _, mapping) => c.(ty := RemapType(c.ty, mapping))
  }

  function ColStep(m: Cols, a: Action): Option<Cols>
    requires IsTableLocal(a)
  {
    if IsColumnEdit(a) then
      if a.column in m then Some(m[a.column := EditView(m[a.column], a)]) else None
    else match a
    case AddColumn(_, c) => if c.name in m || !c.inlineOk then None else Some(m[c.name := ViewOf(c)])
    case DeleteColumn(_, c) => if c in m then Some(m - {c}) else None
    case RenameColumn(_, from, to) =>
      if from in m && (to == from || to !in m) then Some((m - {from})[to := m[from]]) else None
    case AddConstraint(_, _) => Some(m)
    case RemoveConstraint(_, _) => Some(m)
    case ReplaceConstraint(_, _, _) => Some(m)
  }

  /** One action on the view; `None` where the action's precondition does not hold. */
  ghost function ViewStep(v: View, a: Action): Option<View> {
    if IsTableLocal(a) then
      if a.table !in v then None else
      match ColStep(v[a.table], a)
      case None => None
      case Some(m) => Some(v[a.table := m])
    else match a
    case CreateTable(t, cols, _) =>
      if t in v || !DistinctNames(cols) || !AllInlineOk(cols) then None else Some(v[t := ColsOf(cols)])
    case DeleteTable(t) => if t in v then Some(v - {t}) else None
    case RenameTable(from, to) =>
      if from !in v || to in v then None else Some((v - {from})[to := v[from]])
    case RawSql(_) => Some(v)
    case DataMigration(_) => Some(v)
  }

  ghost function ViewReplay(v: View, actions: seq<Action>): Option<View>
    decreases |actions|
  {
    if actions == [] then Some(v) else
    match ViewStep(v, actions[0])
    case None => None
    case Some(v') => ViewReplay(v', actions[1..])
  }

  lemma {:induction false} ViewReplayConcat(v: View, xs: seq<Action>, ys: seq<Action>)
    ensures ViewReplay(v, xs + ys) ==
            match ViewReplay(v, xs) case None => None case Some(v') => ViewReplay(v', ys)
    decreases |xs|
  {
    if xs == [] {
      assert xs + ys == ys;
    } else {
      assert (xs + ys)[1..] == xs[1..] + ys;
      var r := ViewStep(v, xs[0]);
      if r.Some? {
        ViewReplayConcat(r.value, xs[1..], ys);
      }
    }
  }

  // ---------------------------------------------------------------- refinement

  lemma FindColumnAt(cols: seq<ColumnDef>, i: nat)
    requires DistinctNames(cols) && i < |cols|
    ensures FindColumn(cols, cols[i].name) == i
  {
  }

  lemma FindTableAt(s: seq<TableDef>, i: nat)
    requires Wf(s) && i < |s|
    ensures FindTable(s, s[i].name) == i
  {
  }

  /** A map is the view of a column list as soon as it has the right keys and the right entries. */
  lemma ColsOfUnique(cols: seq<ColumnDef>, m: Cols)
    requires DistinctNames(cols)
    requires m.Keys == ColNames(cols)
    requires forall i :: 0 <= i < |cols| ==> cols[i].name in m && m[cols[i].name] == ViewOf(cols[i])
    ensures ColsOf(cols) == m
  {
  }

  lemma ColsOfAt(cols: seq<ColumnDef>, i: nat)
    requires DistinctNames(cols) && i < |cols|
    ensures cols[i].name in ColsOf(cols) && ColsOf(cols)[cols[i].name] == ViewOf(cols[i])
  {
    FindColumnAt(cols, i);
  }

  lemma {:induction false} WithoutColumnDistinct(cols: seq<ColumnDef>, name: string)
    requires DistinctNames(cols)
    ensures DistinctNames(WithoutColumn(cols, name))
  {
    if cols != [] {
      WithoutColumnDistinct(cols[1..], name);
      var rest := WithoutColumn(cols[1..], name);
      assert forall i :: 0 <= i < |rest| ==> rest[i] in cols[1..];
    }
  }

  lemma FilteredView(cols: seq<ColumnDef>, r: seq<ColumnDef>, name: string)
    requires DistinctNames(cols) && DistinctNames(r)
    requires forall c :: c in r <==> c in cols && c.name != name
    ensures ColsOf(r) == ColsOf(cols) - {name}
  {
    var m := ColsOf(cols) - {name};
    forall i | 0 <= i < |r| ensures r[i].name in m && m[r[i].name] == ViewOf(r[i]) {
      assert r[i] in cols;
      var j :| 0 <= j < |cols| && cols[j] == r[i];
      ColsOfAt(cols, j);
    }
    forall n | n in m.Keys ensures n in ColNames(r) {
      assert cols[FindColumn(cols, n)] in r;
    }
    ColsOfUnique(r, m);
  }

  lemma ReplaceColumnView(cols: seq<ColumnDef>, i: nat, c: ColumnDef)
    requires DistinctNames(cols) && i < |cols|
    requires c.name == cols[i].name || c.name !in ColNames(cols)
    ensures DistinctNames(cols[i := c])
    ensures ColsOf(cols[i := c]) == (ColsOf(cols) - {cols[i].name})[c.name := ViewOf(c)]
  {
    var r := cols[i := c];
    var m := (ColsOf(cols) - {cols[i].name})[c.name := ViewOf(c)];
    forall j | 0 <= j < |r| ensures r[j].name in m && m[r[j].name] == ViewOf(r[j]) {
      ColsOfAt(cols, j);
    }
    forall n | n in m.Keys ensures n in ColNames(r) {
      if n == c.name {
        assert r[i].name == n;
      } else {
        assert r[FindColumn(cols, n)].name == n;
      }
    }
    ColsOfUnique(r, m);
  }

  lemma AppendColumnView(cols: seq<ColumnDef>, c: ColumnDef)
    requires DistinctNames(cols) && c.name !in ColNames(cols)
    ensures DistinctNames(cols + [c])
    ensures ColsOf(cols + [c]) == ColsOf(cols)[c.name := ViewOf(c)]
  {
    var r := cols + [c];
    var m := ColsOf(cols)[c.name := ViewOf(c)];
    forall j | 0 <= j < |r| ensures r[j].name in m && m[r[j].name] == ViewOf(r[j]) {
      if j < |cols| {
        ColsOfAt(cols, j);
      }
    }
    forall n | n in m.Keys ensures n in ColNames(r) {
      var j := if n == c.name then |cols| else FindColumn(cols, n);
      assert r[j].name == n;
    }
    ColsOfUnique(r, m);
  }

  ghost predicate TableRefined(t: TableDef, a: Action)
    requires IsTableLocal(a)
  {
    Agrees(t, a, ApplyToTable(t, a), ColStep(ColsOf(t.columns), a))
  }

  /** The table `r` an action leaves agrees with the columns `m` it leaves in the view. */
  ghost predicate Agrees(t: TableDef, a: Action, r: Result<TableDef, PlannerError>, m: Option<Cols>) {
    && (r.Ok? ==> r.value.name == t.name && AllInlineOk(r.value.columns))
    && (m.Some? && r.Ok? ==> DistinctNames(r.value.columns) && ColsOf(r.value.columns) == m.value)
    && (m.Some? && r.Err? ==> a.ReplaceConstraint? && r.error.ReplaceTargetMissing?)
    && (m.None? && r.Ok? ==> !DistinctNames(r.value.columns))
  }

  lemma EditCommutes(c: ColumnDef, a: Action)
    requires IsColumnEdit(a)
    ensures ViewOf(EditColumn(c, a)) == EditView(ViewOf(c), a)
  {
  }

  lemma EditedColumns(cols: seq<ColumnDef>, i: nat, a: Action)
    requires DistinctNames(cols) && i < |cols| && IsColumnEdit(a) && a.column == cols[i].name
    ensures var r := cols[i := EditColumn(cols[i], a)];
      DistinctNames(r) && a.column in ColsOf(cols)
        && ColsOf(r) == ColsOf(cols)[a.column := EditView(ColsOf(cols)[a.column], a)]
  {
    var c, m := EditColumn(cols[i], a), ColsOf(cols);
    ReplaceColumnView(cols, i, c);
    ColsOfAt(cols, i);
    EditCommutes(cols[i], a);
    SetAgain(m, a.column, ViewOf(c));
  }

  lemma SetAgain(m: Cols, k: string, v: ColView)
    ensures (m - {k})[k := v] == m[k := v]
  {
  }

  lemma EditRefined(t: TableDef, a: Action)
    requires WfTable(t) && IsColumnEdit(a)
    ensures TableRefined(t, a)
  {
    var i := FindColumn(t.columns, a.column);
    if i < |t.columns| {
      EditedColumns(t.columns, i, a);
    }
  }

  lemma RenameRefined(t: TableDef, a: Action)
    requires WfTable(t) && a.RenameColumn?
    ensures TableRefined(t, a)
  {
    var cols, m := t.columns, ColsOf(t.columns);
    var i := FindColumn(cols, a.from);
    var renamed := RenameInConstraints(t.constraints, a.from, a.to);
    if i < |cols| {
      ColsOfAt(cols, i);
      RenamedAgrees(t, a, i, renamed);
    } else {
      assert Agrees(t, a, Err(ColumnNotFound(a.table, a.from)), None);
    }
  }

  lemma RenamedAgrees(t: TableDef, a: Action, i: nat, renamed: seq<TableConstraint>)
    requires WfTable(t) && a.RenameColumn? && i < |t.columns| && t.columns[i].name == a.from
    requires a.from in ColsOf(t.columns)
    ensures
      var cols, m := t.columns, ColsOf(t.columns);
      Agrees(t, a, Ok(t.(columns := cols[i := cols[i].(name := a.to)], constraints := renamed)),
        if a.to == a.from || a.to !in m then Some((m - {a.from})[a.to := m[a.from]]) else None)
  {
    var cols := t.columns;
    var c := cols[i].(name := a.to);
    ColsOfAt(cols, i);
    if a.to == a.from || a.to !in ColNames(cols) {
      ReplaceColumnView(cols, i, c);
    } else {
      assert cols[i := c][i].name == cols[i := c][FindColumn(cols, a.to)].name;
    }
  }

  lemma AddRefined(t: TableDef, a: Action)
    requires WfTable(t) && a.AddColumn?
    ensures TableRefined(t, a)
  {
    var cols := t.columns;
    if FindColumn(cols, a.added.name) == |cols| {
      AppendColumnView(cols, a.added);
      assert (cols + [a.added])[|cols|] == a.added;
    }
  }

  lemma DeleteRefined(t: TableDef, a: Action)
    requires WfTable(t) && a.DeleteColumn?
    ensures TableRefined(t, a)
  {
    var cols := t.columns;
    DeleteOutcome(t, a);
    if FindColumn(cols, a.column) < |cols| {
      ColsOfAt(cols, FindColumn(cols, a.column));
      DeletedAgrees(t, a, DropFromConstraints(t.constraints, a.column));
    }
  }

  lemma DeletedAgrees(t: TableDef, a: Action, kept: seq<TableConstraint>)
    requires WfTable(t) && a.DeleteColumn?
    ensures Agrees(t, a, Ok(t.(columns := WithoutColumn(t.columns, a.column), constraints := kept)),
      Some(ColsOf(t.columns) - {a.column}))
  {
    WithoutColumnDistinct(t.columns, a.column);
    FilteredView(t.columns, WithoutColumn(t.columns, a.column), a.column);
  }

  /** Clearing inline fields is invisible to the view. */
  lemma ClearedView(table: string, cols: seq<ColumnDef>, k: TableConstraint)
    requires DistinctNames(cols)
    ensures var r := ClearInline(table, cols, k);
      DistinctNames(r) && ColsOf(r) == ColsOf(cols) && (AllInlineOk(cols) ==> AllInlineOk(r))
  {
    var r := ClearInline(table, cols, k);
    forall i | 0 <= i < |r|
      ensures r[i].name == cols[i].name && ViewOf(r[i]) == ViewOf(cols[i]) && r[i].inlineOk == cols[i].inlineOk
    {
      assert r[i].(marks := cols[i].marks, reference := cols[i].reference) == cols[i];
    }
    forall i | 0 <= i < |r| ensures r[i].name in ColsOf(cols) && ColsOf(cols)[r[i].name] == ViewOf(r[i]) {
      ColsOfAt(cols, i);
    }
    assert ColNames(r) == ColNames(cols);
    ColsOfUnique(r, ColsOf(cols));
  }

  lemma ConstraintRefined(t: TableDef, a: Action)
    requires WfTable(t) && (a.AddConstraint? || a.RemoveConstraint? || a.ReplaceConstraint?)
    ensures TableRefined(t, a)
  {
    if a.RemoveConstraint? {
      ClearedView(a.table, t.columns, a.constraint);
    } else if a.ReplaceConstraint? {
      ClearedView(a.table, t.columns, a.before);
    }
  }

  /** Replay of one table-local action refines the step on that table's columns. */
  lemma TableRefines(t: TableDef, a: Action)
    requires WfTable(t) && IsTableLocal(a)
    ensures TableRefined(t, a)
  {
    if IsColumnEdit(a) {
      EditRefined(t, a);
    } else if a.AddColumn? {
      AddRefined(t, a);
    } else if a.DeleteColumn? {
      DeleteRefined(t, a);
    } else if a.RenameColumn? {
      RenameRefined(t, a);
    } else {
      ConstraintRefined(t, a);
    }
  }

  lemma ViewUnique(s: seq<TableDef>, v: View)
    requires Wf(s)
    requires v.Keys == TableNames(s)
    requires forall i :: 0 <= i < |s| ==> s[i].name in v && v[s[i].name] == ColsOf(s[i].columns)
    ensures ViewSchema(s) == v
  {
  }

  lemma ViewAt(s: seq<TableDef>, i: nat)
    requires Wf(s) && i < |s|
    ensures s[i].name in ViewSchema(s) && ViewSchema(s)[s[i].name] == ColsOf(s[i].columns)
  {
    FindTableAt(s, i);
  }

  lemma ReplaceTableWf(s: seq<TableDef>, i: nat, t: TableDef)
    requires Wf(s) && i < |s| && WfTable(t)
    requires t.name == s[i].name || t.name !in TableNames(s)
    ensures Wf(s[i := t])
  {
  }

  lemma ReplaceTableView(s: seq<TableDef>, i: nat, t: TableDef)
    requires Wf(s) && i < |s| && WfTable(t)
    requires t.name == s[i].name || t.name !in TableNames(s)
    ensures Wf(s[i := t])
    ensures ViewSchema(s[i := t]) == (ViewSchema(s) - {s[i].name})[t.name := ColsOf(t.columns)]
  {
    var r := s[i := t];
    var v := (ViewSchema(s) - {s[i].name})[t.name := ColsOf(t.columns)];
    ReplaceTableWf(s, i, t);
    forall j | 0 <= j < |r| ensures r[j].name in v && v[r[j].name] == ColsOf(r[j].columns) {
      if j != i {
        ViewAt(s, j);
      }
    }
    forall n | n in v.Keys ensures n in TableNames(r) {
      var j := if n == t.name then i else FindTable(s, n);
      assert r[j].name == n;
    }
    ViewUnique(r, v);
  }

  lemma AppendTableView(s: seq<TableDef>, t: TableDef)
    requires Wf(s) && WfTable(t) && t.name !in TableNames(s)
    ensures Wf(s + [t])
    ensures ViewSchema(s + [t]) == ViewSchema(s)[t.name := ColsOf(t.columns)]
  {
    var r := s + [t];
    var v := ViewSchema(s)[t.name := ColsOf(t.columns)];
    forall j | 0 <= j < |r| ensures r[j].name in v && v[r[j].name] == ColsOf(r[j].columns) {
      if j < |s| {
        ViewAt(s, j);
      }
    }
    forall n | n in v.Keys ensures n in TableNames(r) {
      var j := if n == t.name then |s| else FindTable(s, n);
      assert r[j].name == n;
    }
    ViewUnique(r, v);
  }

  lemma {:induction false} WithoutTableWf(s: seq<TableDef>, name: string)
    requires Wf(s)
    ensures Wf(WithoutTable(s, name))
  {
    if s != [] {
      var rest := WithoutTable(s[1..], name);
      assert Wf(s[1..]);
      WithoutTableWf(s[1..], name);
      if s[0].name != name {
        forall i | 0 <= i < |rest| ensures rest[i].name != s[0].name {
          assert rest[i] in s[1..];
        }
        WfCons(s[0], rest);
      }
    }
  }

  lemma WfCons(t: TableDef, rest: seq<TableDef>)
    requires WfTable(t) && Wf(rest) && forall i :: 0 <= i < |rest| ==> rest[i].name != t.name
    ensures Wf([t] + rest)
  {
  }

  lemma FilteredSchemaView(s: seq<TableDef>, r: seq<TableDef>, name: string)
    requires Wf(s) && Wf(r)
    requires forall t :: t in r <==> t in s && t.name != name
    ensures ViewSchema(r) == ViewSchema(s) - {name}
  {
    var v := ViewSchema(s) - {name};
    forall i | 0 <= i < |r| ensures r[i].name in v && v[r[i].name] == ColsOf(r[i].columns) {
      assert r[i] in s;
      var j :| 0 <= j < |s| && s[j] == r[i];
      ViewAt(s, j);
    }
    forall n | n in v.Keys ensures n in TableNames(r) {
      assert s[FindTable(s, n)] in r;
    }
    ViewUnique(r, v);
  }

  /** Rewriting foreign keys leaves the view alone. */
  lemma RetargetView(s: seq<TableDef>, from: string, to: string)
    requires Wf(s)
    ensures var r := seq(|s|, j requires 0 <= j < |s| => RetargetTable(s[j], from, to));
      Wf(r) && ViewSchema(r) == ViewSchema(s)
  {
    var r := seq(|s|, j requires 0 <= j < |s| => RetargetTable(s[j], from, to));
    forall j | 0 <= j < |r| ensures r[j].name in ViewSchema(s) && ViewSchema(s)[r[j].name] == ColsOf(r[j].columns) {
      ViewAt(s, j);
    }
    forall n | n in ViewSchema(s).Keys ensures n in TableNames(r) {
      assert r[FindTable(s, n)].name == n;
    }
    ViewUnique(r, ViewSchema(s));
  }

  /** `apply_action` refines the view step. Where the step is defined the action can only fail at a
      `ReplaceConstraint` whose constraint is absent; where it is not, the action fails or breaks
      the distinctness of column names. */
  ghost predicate Refines(s: seq<TableDef>, a: Action) {
    var r, v := ApplyAction(s, a), ViewStep(ViewSchema(s), a);
    && (v.Some? && r.Ok? ==> Wf(r.value) && ViewSchema(r.value) == v.value)
    && (v.Some? && r.Err? ==> a.ReplaceConstraint? && r.error.ReplaceTargetMissing?)
    && (v.None? && r.Ok? ==> !Wf(r.value))
  }

  lemma TableChangeView(s: seq<TableDef>, i: nat, t: TableDef)
    requires Wf(s) && i < |s| && t.name == s[i].name && AllInlineOk(t.columns)
    ensures Wf(s[i := t]) <==> DistinctNames(t.columns)
    ensures DistinctNames(t.columns) ==> ViewSchema(s[i := t]) == ViewSchema(s)[t.name := ColsOf(t.columns)]
  {
    var v, m := ViewSchema(s), ColsOf(t.columns);
    if DistinctNames(t.columns) {
      ReplaceTableView(s, i, t);
      assert (v - {t.name})[t.name := m] == v[t.name := m];
    } else {
      assert !WfTable(s[i := t][i]);
    }
  }

  lemma LocalRefines(s: seq<TableDef>, a: Action)
    requires Wf(s) && IsTableLocal(a)
    ensures Refines(s, a)
  {
    var i := FindTable(s, a.table);
    if i < |s| {
      ViewAt(s, i);
      TableRefines(s[i], a);
      var r := ApplyToTable(s[i], a);
      if r.Ok? {
        TableChangeView(s, i, r.value);
      }
    } else {
      LocalMissing(s, a);
    }
  }

  lemma LocalMissing(s: seq<TableDef>, a: Action)
    requires IsTableLocal(a) && FindTable(s, a.table) == |s|
    ensures Refines(s, a)
  {
    assert a.table !in ViewSchema(s);
  }

  lemma RenameTableRefines(s: seq<TableDef>, from: string, to: string)
    requires Wf(s)
    ensures Refines(s, RenameTable(from, to))
  {
    var i := FindTable(s, from);
    if FindTable(s, to) == |s| && i < |s| {
      ViewAt(s, i);
      var t := s[i].(name := to);
      ReplaceTableView(s, i, t);
      RetargetView(s[i := t], from, to);
    }
  }

  lemma CreateTableRefines(s: seq<TableDef>, a: Action)
    requires Wf(s) && a.CreateTable?
    ensures Refines(s, a)
  {
    if FindTable(s, a.table) == |s| && AllInlineOk(a.columns) {
      var t := TableDef(a.table, a.columns, Promote(a.columns, a.constraints));
      if DistinctNames(a.columns) {
        AppendTableView(s, t);
      } else {
        assert !WfTable((s + [t])[|s|]);
      }
    }
  }

  lemma StepRefines(s: seq<TableDef>, a: Action)
    requires Wf(s)
    ensures Refines(s, a)
  {
    if IsTableLocal(a) {
      LocalRefines(s, a);
    } else {
      match a
      case CreateTable(_, _, _) => CreateTableRefines(s, a);
      case DeleteTable(t) =>
        WithoutTableWf(s, t);
        FilteredSchemaView(s, WithoutTable(s, t), t);
      case RenameTable(from, to) => RenameTableRefines(s, from, to);
      case RawSql(_) =>
      case DataMigration(_) =>
    }
  }

  /** The replay succeeds and every schema it passes through is well formed. */
  ghost predicate CleanReplay(s: seq<TableDef>, actions: seq<Action>)
    decreases |actions|
  {
    Wf(s) && (actions != [] ==>
      var r := ApplyAction(s, actions[0]);
      r.Ok? && CleanReplay(r.value, actions[1..]))
  }

  lemma {:induction false} CleanReplayView(s: seq<TableDef>, actions: seq<Action>)
    requires CleanReplay(s, actions)
    ensures Replay(s, actions).Ok?
    ensures ViewReplay(ViewSchema(s), actions) == Some(ViewSchema(Replay(s, actions).value))
    decreases |actions|
  {
    if actions != [] {
      StepRefines(s, actions[0]);
      var r := ApplyAction(s, actions[0]).value;
      assert Wf(r);
      CleanReplayView(r, actions[1..]);
    }
  }

  /** Starting well formed, a replay stays well formed exactly if it succeeds and the view replay does. */
  lemma {:induction false} CleanExactly(s: seq<TableDef>, actions: seq<Action>)
    requires Wf(s)
    ensures CleanReplay(s, actions) <==> Replay(s, actions).Ok? && ViewReplay(ViewSchema(s), actions).Some?
    decreases |actions|
  {
    if CleanReplay(s, actions) {
      CleanReplayView(s, actions);
    } else if actions != [] && Replay(s, actions).Ok? && ViewReplay(ViewSchema(s), actions).Some? {
      StepRefines(s, actions[0]);
      CleanExactly(ApplyAction(s, actions[0]).value, actions[1..]);
      assert false;
    }
  }

  ghost predicate NoReplace(actions: seq<Action>) {
    forall i :: 0 <= i < |actions| ==> !actions[i].ReplaceConstraint?
  }

  /** A replay defined on the view is a replay of the schema, up to missing replace targets. */
  lemma {:induction false} ViewReplayRefined(s: seq<TableDef>, actions: seq<Action>)
    requires Wf(s)
    requires ViewReplay(ViewSchema(s), actions).Some?
    ensures
      var r := Replay(s, actions);
      && (r.Ok? ==> Wf(r.value) && Some(ViewSchema(r.value)) == ViewReplay(ViewSchema(s), actions))
      && (r.Err? ==> r.error.ReplaceTargetMissing? && !NoReplace(actions))
    decreases |actions|
  {
    if actions != [] {
      StepRefines(s, actions[0]);
      var r := ApplyAction(s, actions[0]);
      if r.Ok? {
        ViewReplayRefined(r.value, actions[1..]);
      }
      assert NoReplace(actions) ==> NoReplace(actions[1..]) && !actions[0].ReplaceConstraint?;
    }
  }
}
