/** Schema values, migration actions, and the replay that rebuilds a schema from a plan history. */
module Schema {
  import opened Common
  import Decimal

  // ---------------------------------------------------------------- values

  /** What `f64::to_string` prints; it never prints nothing. */
  type FloatText = s: string | s != "" witness "0"

  datatype DefaultValue =
    | BoolDefault(flag: bool)
    | IntegerDefault(number: int)
    | FloatDefault(text: FloatText)
    | StringDefault(sql: string)

  /** `DefaultValue::to_sql`: the empty string becomes the SQL literal for it. */
  function ToSql(d: DefaultValue): (sql: string)
    ensures sql != ""
  {
    match d
    case BoolDefault(b) => if b then "true" else "false"
    case IntegerDefault(n) => Decimal.SignedNumeral(n)
    case FloatDefault(t) => t
    case StringDefault(s) => if s == "" then "''" else s
  }

  predicate IsZeroText(t: string) {
    t == "0" || t == "-0"
  }

  /** The derived `PartialEq`: floats compare as IEEE numbers, so the two zeros are equal and
      NaN differs from itself. Every other pair of distinct floats prints differently. */
  predicate SameDefault(a: DefaultValue, b: DefaultValue) {
    match (a, b)
    case (FloatDefault(x), FloatDefault(y)) => x != "NaN" && (x == y || (IsZeroText(x) && IsZeroText(y)))
    case (_, _) => a == b
  }

  predicate SameOptDefault(a: Option<DefaultValue>, b: Option<DefaultValue>) {
    match (a, b)
    case (Some(x), Some(y)) => SameDefault(x, y)
    case (None, None) => true
    case (_, _) => false
  }

  function RenderDefault(d: Option<DefaultValue>): Option<string> {
    match d
    case None => None
    case Some(v) => Some(ToSql(v))
  }

  datatype EnumItem = EnumItem(name: string, value: int)

  datatype ColumnType =
    | Simple(name: string)
    | Complex(spec: string)
    | IntegerEnum(name: string, items: seq<EnumItem>)

  /** An inline foreign key, as `parse_foreign_key` reads it. */
  datatype Reference = Reference(table: string, columns: seq<string>, policy: string)

  /** `PrimaryKeySyntax`. */
  datatype KeyMark = OnOff(on: bool) | Object(autoIncrement: bool)

  /** `StrOrBoolOrArray`, for the groups of an inline unique or index field. */
  datatype Groups = Single(group: string) | Many(groups: seq<string>) | Switch(on: bool)

  /** The inline primary-key, unique and index fields of a column. */
  datatype Marks = Marks(primaryKey: Option<KeyMark>, unique: Option<Groups>, index: Option<Groups>)

  const UNMARKED: Marks := Marks(None, None, None)

  /** `inlineOk` records whether the inline fields pass `normalize`: the foreign key parses and no index
      group is repeated. */
  datatype ColumnDef = ColumnDef(
    name: string, ty: ColumnType, nullable: bool, default: Option<DefaultValue>,
    comment: Option<string>, marks: Marks, reference: Option<Reference>, inlineOk: bool)

  /** `policy` stands for the fields replay only copies and compares (strategies, reference actions). */
  datatype TableConstraint =
    | PrimaryKey(columns: seq<string>, policy: string)
    | Unique(name: Option<string>, columns: seq<string>, policy: string)
    | ForeignKey(name: Option<string>, columns: seq<string>, refTable: string, refColumns: seq<string>, policy: string)
    | Check(checkName: string, expr: string, policy: string)
    | Index(name: Option<string>, columns: seq<string>)

  type PlainConstraint = c: TableConstraint | !c.ForeignKey? witness PrimaryKey([], "")

  datatype TableDef = TableDef(name: string, columns: seq<ColumnDef>, constraints: seq<TableConstraint>)

  /** Fields of an action that replay never reads (fill values, backfills, strategies) are not here. */
  datatype Action =
    | CreateTable(table: string, columns: seq<ColumnDef>, constraints: seq<TableConstraint>)
    | DeleteTable(table: string)
    | RenameTable(from: string, to: string)
    | AddColumn(table: string, added: ColumnDef)
    | DeleteColumn(table: string, column: string)
    | RenameColumn(table: string, from: string, to: string)
    | ModifyColumnType(table: string, column: string, newType: ColumnType)
    | ModifyColumnNullable(table: string, column: string, nullable: bool)
    | ModifyColumnDefault(table: string, column: string, newDefault: Option<string>)
    | ModifyColumnComment(table: string, column: string, newComment: Option<string>)
    | AddConstraint(table: string, constraint: TableConstraint)
    | RemoveConstraint(table: string, constraint: TableConstraint)
    | ReplaceConstraint(table: string, before: TableConstraint, after: TableConstraint)
    | RemapEnumValues(table: string, column: string, mapping: map<int, int>)
    | RawSql(sql: string)
    | DataMigration(sql: string)

  datatype Plan = Plan(version: nat, actions: seq<Action>)

  datatype PlannerError =
    | TableExists(table: string)
    | TableNotFound(table: string)
    | ColumnExists(table: string, column: string)
    | ColumnNotFound(table: string, column: string)
    | NormalizeFailed(table: string)
    | ReplaceTargetMissing(table: string)

  // ---------------------------------------------------------------- lookups

  function FindTable(s: seq<TableDef>, name: string): (i: nat)
    ensures i <= |s|
    ensures i < |s| ==> s[i].name == name
    ensures forall j :: 0 <= j < i ==> s[j].name != name
  {
    if s == [] || s[0].name == name then 0 else 1 + FindTable(s[1..], name)
  }

  function FindColumn(cols: seq<ColumnDef>, name: string): (i: nat)
    ensures i <= |cols|
    ensures i < |cols| ==> cols[i].name == name
    ensures forall j :: 0 <= j < i ==> cols[j].name != name
  {
    if cols == [] || cols[0].name == name then 0 else 1 + FindColumn(cols[1..], name)
  }

  function WithoutTable(s: seq<TableDef>, name: string): (r: seq<TableDef>)
    ensures |r| <= |s|
    ensures |r| == |s| <==> FindTable(s, name) == |s|
    ensures forall t :: t in r <==> t in s && t.name != name
  {
    if s == [] then [] else
    (if s[0].name == name then [] else [s[0]]) + WithoutTable(s[1..], name)
  }

  function WithoutColumn(cols: seq<ColumnDef>, name: string): (r: seq<ColumnDef>)
    ensures |r| <= |cols|
    ensures |r| == |cols| <==> FindColumn(cols, name) == |cols|
    ensures forall c :: c in r <==> c in cols && c.name != name
  {
    if cols == [] then [] else
    (if cols[0].name == name then [] else [cols[0]]) + WithoutColumn(cols[1..], name)
  }

  function WithoutName(names: seq<string>, name: string): seq<string> {
    if names == [] then [] else (if names[0] == name then [] else [names[0]]) + WithoutName(names[1..], name)
  }

  // ---------------------------------------------------------------- constraints under column changes

  function DropFromConstraints(cs: seq<TableConstraint>, column: string): seq<TableConstraint> {
    if cs == [] then [] else
    var rest := DropFromConstraints(cs[1..], column);
    if cs[0].Check? then [cs[0]] + rest else
    var kept := cs[0].(columns := WithoutName(cs[0].columns, column));
    if kept.columns == [] then rest else [kept] + rest
  }

  function RenameRefs(names: seq<string>, from: string, to: string): seq<string> {
    seq(|names|, i requires 0 <= i < |names| => if names[i] == from then to else names[i])
  }

  function RenameInConstraint(c: TableConstraint, from: string, to: string): TableConstraint {
    var own := if c.Check? then c else c.(columns := RenameRefs(c.columns, from, to));
    if own.ForeignKey? then own.(refColumns := RenameRefs(own.refColumns, from, to)) else own
  }

  function RenameInConstraints(cs: seq<TableConstraint>, from: string, to: string): seq<TableConstraint> {
    seq(|cs|, i requires 0 <= i < |cs| => RenameInConstraint(cs[i], from, to))
  }

  function RetargetConstraint(c: TableConstraint, from: string, to: string): TableConstraint {
    if c.ForeignKey? && c.refTable == from then c.(refTable := to) else c
  }

  /** Every foreign key of `t` that pointed at `from` points at `to`. */
  function RetargetTable(t: TableDef, from: string, to: string): TableDef {
    t.(constraints := seq(|t.constraints|, i requires 0 <= i < |t.constraints| =>
                            RetargetConstraint(t.constraints[i], from, to)))
  }

  function WithoutConstraint(cs: seq<TableConstraint>, c: TableConstraint): seq<TableConstraint> {
    if cs == [] then [] else (if cs[0] == c then [] else [cs[0]]) + WithoutConstraint(cs[1..], c)
  }

  function ReplaceFirst(cs: seq<TableConstraint>, before: TableConstraint,
      after: TableConstraint): seq<TableConstraint> {
    if cs == [] then [] else
    if cs[0] == before then [after] + cs[1..] else [cs[0]] + ReplaceFirst(cs[1..], before, after)
  }

  // ---------------------------------------------------------------- inline constraints

  /** The constraints that are not foreign keys, in order. */
  function Plain(cs: seq<TableConstraint>): seq<PlainConstraint> {
    if cs == [] then [] else if cs[0].ForeignKey? then Plain(cs[1..]) else [cs[0]] + Plain(cs[1..])
  }

  predicate HasForeignKey(cs: seq<TableConstraint>, column: string) {
    exists i :: 0 <= i < |cs| && cs[i].ForeignKey? && cs[i].columns == [column]
  }

  /** The constraint `normalize` makes of an inline foreign key. */
  function OwnReference(x: ColumnDef): TableConstraint
    requires x.reference.Some?
  {
    var r := x.reference.value;
    ForeignKey(None, [x.name], r.table, r.columns, r.policy)
  }

  /** Inline foreign keys become constraints unless the column has a foreign key of its own. */
  function WithReferences(cols: seq<ColumnDef>, cs: seq<TableConstraint>): seq<TableConstraint>
    decreases |cols|
  {
    if cols == [] then cs else
    var c := cols[0];
    if c.reference.Some? && !HasForeignKey(cs, c.name) then WithReferences(cols[1..], cs + [OwnReference(c)])
    else WithReferences(cols[1..], cs)
  }

  const AUTO := "__auto_"
  const KEY_POLICY := "default"
  const AUTO_INCREMENT_POLICY := "auto_increment default"
  const UNIQUE_POLICY := "delete_duplicates keep first"

  predicate IsKey(c: ColumnDef) {
    c.marks.primaryKey.Some? && c.marks.primaryKey.value != OnOff(false)
  }

  function KeyColumns(cols: seq<ColumnDef>): seq<string> {
    if cols == [] then [] else (if IsKey(cols[0]) then [cols[0].name] else []) + KeyColumns(cols[1..])
  }

  predicate AutoIncrement(cols: seq<ColumnDef>) {
    exists i :: 0 <= i < |cols| && cols[i].marks.primaryKey == Some(Object(true))
  }

  /** One primary key over every marked column, unless the table has one. */
  function NewPrimaryKey(cols: seq<ColumnDef>, cs: seq<PlainConstraint>): seq<PlainConstraint> {
    if KeyColumns(cols) == [] || (exists i :: 0 <= i < |cs| && cs[i].PrimaryKey?) then []
    else [PrimaryKey(KeyColumns(cols), if AutoIncrement(cols) then AUTO_INCREMENT_POLICY else KEY_POLICY)]
  }

  datatype GroupKind = Uniques | Indexes

  function GroupsOf(kind: GroupKind, c: ColumnDef): seq<string> {
    match if kind == Uniques then c.marks.unique else c.marks.index
    case None => []
    case Some(Single(g)) => [g]
    case Some(Many(gs)) => gs
    case Some(Switch(on)) => if on then [AUTO + c.name] else []
  }

  /** Each group with the column that mentions it, in column order. */
  function Mentions(kind: GroupKind, cols: seq<ColumnDef>): seq<(string, string)> {
    if cols == [] then [] else
    var c, n := cols[|cols| - 1], |cols| - 1;
    var gs := GroupsOf(kind, c);
    Mentions(kind, cols[..n]) + seq(|gs|, i requires 0 <= i < |gs| => (gs[i], c.name))
  }

  /** The groups in the order they are first mentioned. */
  function GroupOrder(mentions: seq<(string, string)>): seq<string> {
    if mentions == [] then [] else
    var n := |mentions| - 1;
    var order := GroupOrder(mentions[..n]);
    if mentions[n].0 in order then order else order + [mentions[n].0]
  }

  function GroupColumns(mentions: seq<(string, string)>, group: string): seq<string> {
    if mentions == [] then [] else
    var n := |mentions| - 1;
    GroupColumns(mentions[..n], group) + if mentions[n].0 == group then [mentions[n].1] else []
  }

  /** A generated group name gives an unnamed constraint. */
  function GroupConstraint(kind: GroupKind, group: string, columns: seq<string>): PlainConstraint {
    var name := if AUTO <= group then None else Some(group);
    if kind == Uniques then Unique(name, columns, UNIQUE_POLICY) else Index(name, columns)
  }

  /** `unique_constraint_exists` and `index_constraint_exists`: same name, or no names and same columns. */
  predicate Resembles(kind: GroupKind, c: TableConstraint, d: TableConstraint) {
    && (if kind == Uniques then c.Unique? && d.Unique? else c.Index? && d.Index?)
    && if d.name.Some? then c.name == d.name else c.name.None? && c.columns == d.columns
  }

  /** What the loop over the groups appends to `cs`. */
  function NewGroups(kind: GroupKind, mentions: seq<(string, string)>, order: seq<string>, cs: seq<PlainConstraint>):
      seq<PlainConstraint>
    decreases |order|
  {
    if order == [] then [] else
    var c := GroupConstraint(kind, order[0], GroupColumns(mentions, order[0]));
    if exists i :: 0 <= i < |cs| && Resembles(kind, cs[i], c) then NewGroups(kind, mentions, order[1..], cs)
    else [c] + NewGroups(kind, mentions, order[1..], cs + [c])
  }

  function Grouped(kind: GroupKind, cols: seq<ColumnDef>, cs: seq<PlainConstraint>): seq<PlainConstraint> {
    NewGroups(kind, Mentions(kind, cols), GroupOrder(Mentions(kind, cols)), cs)
  }

  /** The primary key and the unique constraints `normalize` appends to `cs`. */
  function NewKeys(cols: seq<ColumnDef>, cs: seq<PlainConstraint>): seq<PlainConstraint> {
    var key := NewPrimaryKey(cols, cs);
    key + Grouped(Uniques, cols, cs + key)
  }

  /** `normalize`: keys, foreign keys, indexes. */
  function Promote(cols: seq<ColumnDef>, cs: seq<TableConstraint>): seq<TableConstraint> {
    var keyed := cs + NewKeys(cols, Plain(cs));
    var referring := WithReferences(cols, keyed);
    referring + Grouped(Indexes, cols, Plain(referring))
  }

  // ---------------------------------------------------------------- clearing inline fields

  /** `build_index_name` for one column. */
  function AutoIndexName(table: string, column: string): string {
    "ix_" + table + "__" + column
  }

  function WithoutGroup(group: string, m: Option<Groups>): Option<Groups> {
    match m
    case Some(Single(g)) => if g == group then None else m
    case Some(Many(gs)) => var kept := WithoutName(gs, group); if kept == [] then None else Some(Many(kept))
    case _ => m
  }

  /** What removing a constraint from `table` leaves of the marks of a column; `first` tells the first
      column of its name. Only the generated name of an index mentions the table. */
  function ClearMarks(table: string, column: string, first: bool, m: Marks, c: PlainConstraint): Marks {
    if c.PrimaryKey? then
      if first && column in c.columns then m.(primaryKey := None) else m
    else if c.Unique? then
      if c.name.Some? then m.(unique := WithoutGroup(c.name.value, m.unique))
      else if first && c.columns == [column] then m.(unique := None)
      else m
    else if c.Index? then
      if c.name.Some? then
        m.(index := if first && c.name.value ==
          AutoIndexName(table, column) then None else WithoutGroup(c.name.value, m.index))
      else if first && c.columns == [column] then m.(index := None)
      else m
    else m
  }

  /** Inline fields that would bring a removed constraint back are cleared. */
  function ClearColumn(table: string, col: ColumnDef, first: bool, c: TableConstraint): (r: ColumnDef)
    ensures r.(marks := col.marks, reference := col.reference) == col
  {
    if c.ForeignKey? then if first && col.name in c.columns then col.(reference := None) else col
    else col.(marks := ClearMarks(table, col.name, first, col.marks, c))
  }

  /** The columns differ in their inline fields at most. */
  predicate SameButInline(a: seq<ColumnDef>, b: seq<ColumnDef>) {
    |a| == |b| && forall i :: 0 <= i < |a| ==> a[i].(marks := b[i].marks, reference := b[i].reference) == b[i]
  }

  /** `clear_inline_constraint_fields`, on the table the action names. */
  function ClearInline(table: string, cols: seq<ColumnDef>, c: TableConstraint): (r: seq<ColumnDef>)
    ensures SameButInline(r, cols)
  {
    seq(|cols|, i requires 0 <= i < |cols| => ClearColumn(table, cols[i], FindColumn(cols, cols[i].name) == i, c))
  }

  // ---------------------------------------------------------------- apply_action

  predicate AllInlineOk(cols: seq<ColumnDef>) {
    forall i :: 0 <= i < |cols| ==> cols[i].inlineOk
  }

  function RemapItems(items: seq<EnumItem>, mapping: map<int, int>): seq<EnumItem> {
    seq(|items|, i requires 0 <= i < |items| =>
      if items[i].value in mapping then items[i].(value := mapping[items[i].value]) else items[i])
  }

  function RemapType(ty: ColumnType, mapping: map<int, int>): ColumnType {
    if ty.IntegerEnum? then ty.(items := RemapItems(ty.items, mapping)) else ty
  }

  /** Actions that bind to one column of one table. */
  predicate IsColumnEdit(a: Action) {
    || a.ModifyColumnType? || a.ModifyColumnNullable? || a.ModifyColumnDefault?
    || a.ModifyColumnComment? || a.RemapEnumValues?
  }

  function EditColumn(c: ColumnDef, a: Action): (r: ColumnDef)
    requires IsColumnEdit(a)
    ensures r.name == c.name && r.inlineOk == c.inlineOk
  {
    match a
    case ModifyColumnType(_, _, ty) => c.(ty := ty)
    case ModifyColumnNullable(_, _, nullable) => c.(nullable := nullable)
    case ModifyColumnDefault(_, _, d) => c.(default := if d.None? then None else Some(StringDefault(d.value)))
    case ModifyColumnComment(_, _, comment) => c.(comment := comment)
    case RemapEnumValues(_, _, mapping) => c.(ty := RemapType(c.ty, mapping))
  }

  /** Actions that change the table they name and nothing else. */
  predicate IsTableLocal(a: Action) {
    !a.CreateTable? && !a.DeleteTable? && !a.RenameTable? && !a.RawSql? && !a.DataMigration?
  }

  function ApplyToTable(t: TableDef, a: Action): Result<TableDef, PlannerError>
    requires IsTableLocal(a)
  {
    if IsColumnEdit(a) then
      var i := FindColumn(t.columns, a.column);
      if i == |t.columns| then Err(ColumnNotFound(a.table, a.column))
      else Ok(t.(columns := t.columns[i := EditColumn(t.columns[i], a)]))
    else match a
    case AddColumn(table, c) =>
      if FindColumn(t.columns, c.name) < |t.columns| then Err(ColumnExists(table, c.name))
      else
        var cols := t.columns + [c];
        if AllInlineOk(cols) then Ok(t.(columns := cols, constraints := Promote(cols, t.constraints)))
        else Err(NormalizeFailed(table))
    case DeleteColumn(table, c) =>
      var cols := WithoutColumn(t.columns, c);
      if |cols| == |t.columns| then Err(ColumnNotFound(table, c))
      else Ok(t.(columns := cols, constraints := DropFromConstraints(t.constraints, c)))
    case RenameColumn(table, from, to) =>
      var i := FindColumn(t.columns, from);
      if i == |t.columns| then Err(ColumnNotFound(table, from))
      else Ok(t.(columns := t.columns[i := t.columns[i].(name := to)],
                 constraints := RenameInConstraints(t.constraints, from, to)))
    case AddConstraint(_, c) =>
      Ok(if c in t.constraints then t else t.(constraints := t.constraints + [c]))
    case RemoveConstraint(table, c) =>
      Ok(t.(columns := ClearInline(table, t.columns, c), constraints := WithoutConstraint(t.constraints, c)))
    case ReplaceConstraint(table, before, after) =>
      if before in t.constraints
      then Ok(t.(columns := ClearInline(table, t.columns, before),
        constraints := ReplaceFirst(t.constraints, before, after)))
      else Err(ReplaceTargetMissing(table))
  }

  function ApplyAction(s: seq<TableDef>, a: Action): Result<seq<TableDef>, PlannerError> {
    if IsTableLocal(a) then
      var i := FindTable(s, a.table);
      if i == |s| then Err(TableNotFound(a.table))
      else
        match ApplyToTable(s[i], a)
        case Err(e) => Err(e)
        case Ok(t) => Ok(s[i := t])
    else match a
    case CreateTable(table, cols, cs) =>
      if FindTable(s, table) < |s| then Err(TableExists(table))
      else if !AllInlineOk(cols) then Err(NormalizeFailed(table))
      else Ok(s + [TableDef(table, cols, Promote(cols, cs))])
    case DeleteTable(table) =>
      var kept := WithoutTable(s, table);
      if |kept| == |s| then Err(TableNotFound(table)) else Ok(kept)
    case RenameTable(from, to) =>
      if FindTable(s, to) < |s| then Err(TableExists(to))
      else
        var i := FindTable(s, from);
        if i == |s| then Err(TableNotFound(from))
        else
          var renamed := s[i := s[i].(name := to)];
          Ok(seq(|renamed|, j requires 0 <= j < |renamed| => RetargetTable(renamed[j], from, to)))
    case RawSql(_) => Ok(s)
    case DataMigration(_) => Ok(s)
  }

  function Replay(s: seq<TableDef>, actions: seq<Action>): Result<seq<TableDef>, PlannerError>
    decreases |actions|
  {
    if actions == [] then Ok(s) else
    match ApplyAction(s, actions[0])
    case Err(e) => Err(e)
    case Ok(s') => Replay(s', actions[1..])
  }

  lemma AddOutcome(t: TableDef, table: string, c: ColumnDef)
    requires FindColumn(t.columns, c.name) == |t.columns| && AllInlineOk(t.columns + [c])
    ensures ApplyToTable(t, AddColumn(table, c)) ==
            Ok(t.(columns := t.columns + [c], constraints := Promote(t.columns + [c], t.constraints)))
  {
  }

  lemma DeleteOutcome(t: TableDef, a: Action)
    requires a.DeleteColumn?
    ensures ApplyToTable(t, a) ==
      if FindColumn(t.columns, a.column) == |t.columns| then Err(ColumnNotFound(a.table, a.column))
      else Ok(t.(columns := WithoutColumn(t.columns, a.column),
        constraints := DropFromConstraints(t.constraints, a.column)))
  {
  }

  lemma RemoveOutcome(t: TableDef, table: string, c: TableConstraint)
    ensures ApplyToTable(t, RemoveConstraint(table, c)) ==
            Ok(TableDef(t.name, ClearInline(table, t.columns, c), WithoutConstraint(t.constraints, c)))
  {
  }

  lemma ReplayStep(s: seq<TableDef>, a: Action, s': seq<TableDef>, rest: seq<Action>)
    requires ApplyAction(s, a) == Ok(s')
    ensures Replay(s, [a] + rest) == Replay(s', rest)
  {
    assert ([a] + rest)[1..] == rest;
  }

  lemma OneTable(d: TableDef, act: Action)
    requires IsTableLocal(act) && act.table == d.name
    ensures ApplyAction([d], act) ==
            match ApplyToTable(d, act) case Ok(r) => Ok([r]) case Err(e) => Err(e)
  {
    assert FindTable([d], d.name) == 0;
    assert forall r: TableDef :: [d][0 := r] == [r];
  }

  lemma {:induction false} ReplayConcat(s: seq<TableDef>, xs: seq<Action>, ys: seq<Action>)
    ensures Replay(s, xs + ys) ==
            match Replay(s, xs) case Err(e) => Err(e) case Ok(s') => Replay(s', ys)
    decreases |xs|
  {
    if xs == [] {
      assert xs + ys == ys;
    } else {
      assert (xs + ys)[1..] == xs[1..] + ys;
      var r := ApplyAction(s, xs[0]);
      if r.Ok? {
        ReplayConcat(r.value, xs[1..], ys);
      }
    }
  }

  function AllActions(plans: seq<Plan>): seq<Action> {
    if plans == [] then [] else plans[0].actions + AllActions(plans[1..])
  }

  lemma {:induction false} AllActionsSnoc(plans: seq<Plan>, p: Plan)
    ensures AllActions(plans + [p]) == AllActions(plans) + p.actions
  {
    if plans == [] {
      assert plans + [p] == [p];
    } else {
      assert (plans + [p])[1..] == plans[1..] + [p];
      AllActionsSnoc(plans[1..], p);
    }
  }

  lemma ReplaySnoc(s: seq<TableDef>, actions: seq<Action>, a: Action)
    ensures Replay(s, actions + [a]) ==
            if Replay(s, actions).Ok? then ApplyAction(Replay(s, actions).value, a) else Replay(s, actions)
  {
    ReplayConcat(s, actions, [a]);
    assert [a][1..] == [];
  }

  lemma ReplayNext(s: seq<TableDef>, actions: seq<Action>, j: nat)
    requires j < |actions|
    ensures Replay(s, actions[..j + 1]) ==
            match Replay(s, actions[..j])
            case Err(e) => Err(e)
            case Ok(r) => ApplyAction(r, actions[j])
  {
    assert actions[..j + 1] == actions[..j] + [actions[j]];
    ReplaySnoc(s, actions[..j], actions[j]);
  }

  /** The two nested loops of `schema_from_plans` compute one replay of the concatenated history. */
  method SchemaFromPlans(plans: seq<Plan>) returns (r: Result<seq<TableDef>, PlannerError>)
    ensures r == Replay([], AllActions(plans))
  {
    var schema := [];
    for i := 0 to |plans|
      invariant Replay([], AllActions(plans[..i])) == Ok(schema)
    {
      var actions := plans[i].actions;
      ghost var before := schema;
      for j := 0 to |actions|
        invariant Replay(before, actions[..j]) == Ok(schema)
      {
        ReplayNext(before, actions, j);
        var step := ApplyAction(schema, actions[j]);
        if step.Err? {
          ReplayStopsAt(plans, i, j, step.error);
          return step;
        }
        schema := step.value;
      }
      assert actions[..|actions|] == actions;
      ReplayConcat([], AllActions(plans[..i]), actions);
      AllActionsSnoc(plans[..i], plans[i]);
      assert plans[..i] + [plans[i]] == plans[..i + 1];
    }
    assert plans[..|plans|] == plans;
    return Ok(schema);
  }

  lemma {:induction false} AllActionsSplit(plans: seq<Plan>, i: nat)
    requires i <= |plans|
    ensures AllActions(plans) == AllActions(plans[..i]) + AllActions(plans[i..])
  {
    if i == 0 {
      assert plans[..0] == [] && plans[0..] == plans;
    } else {
      assert plans[..i][1..] == plans[1..][..i - 1] && plans[i..] == plans[1..][i - 1..];
      AllActionsSplit(plans[1..], i - 1);
    }
  }

  lemma ReplayStopsAt(plans: seq<Plan>, i: nat, j: nat, e: PlannerError)
    requires i < |plans| && j < |plans[i].actions|
    requires
      var prefix := Replay([], AllActions(plans[..i]));
      && prefix.Ok?
      && Replay(prefix.value, plans[i].actions[..j + 1]) == Err(e)
    ensures Replay([], AllActions(plans)) == Err(e)
  {
    var s := Replay([], AllActions(plans[..i])).value;
    var actions := plans[i].actions;
    AllActionsSplit(plans, i);
    ReplayConcat([], AllActions(plans[..i]), AllActions(plans[i..]));
    ErrorStays(s, actions, j + 1, e);
    ReplayConcat(s, actions, AllActions(plans[i..][1..]));
  }

  lemma ErrorStays(s: seq<TableDef>, actions: seq<Action>, k: nat, e: PlannerError)
    requires k <= |actions| && Replay(s, actions[..k]) == Err(e)
    ensures Replay(s, actions) == Err(e)
  {
    assert actions == actions[..k] + actions[k..];
    ReplayConcat(s, actions[..k], actions[k..]);
  }
}
