/** Rewritten plans that replace constraints. The column view cannot tell whether a replaced constraint
    is still there, so this follows the constraints of every table through the rewritten replay. */
module RenameReplay {
  import opened Common
  import opened Schema
  import opened ColumnView
  import opened References
  import opened TableDiff
  import opened DropResolution
  import opened RenameMeaning

  // ---------------------------------------------------------------- schemas table by table

  lemma AtUpdate(s: seq<TableDef>, t: TableDef, o: string)
    requires FindTable(s, t.name) < |s|
    ensures BaselineTable(s[FindTable(s, t.name) := t], o) == if o == t.name then Some(t) else BaselineTable(s, o)
  {
    var i := FindTable(s, t.name);
    var r := s[i := t];
    assert forall j :: 0 <= j < |s| ==> r[j].name == s[j].name;
    assert FindTable(r, o) == FindTable(s, o);
  }

  lemma {:induction false} AtAppend(s: seq<TableDef>, t: TableDef, o: string)
    requires FindTable(s, t.name) == |s|
    ensures BaselineTable(s + [t], o) == if o == t.name then Some(t) else BaselineTable(s, o)
  {
    if s == [] {
      assert s + [t] == [t];
    } else {
      AtAppend(s[1..], t, o);
      assert s + [t] == [s[0]] + (s[1..] + [t]) && s == [s[0]] + s[1..];
      AtCons(s[0], s[1..] + [t], o);
      AtCons(s[0], s[1..], o);
    }
  }

  lemma {:induction false} AtWithout(s: seq<TableDef>, name: string, o: string)
    ensures BaselineTable(WithoutTable(s, name), o) == if o == name then None else BaselineTable(s, o)
  {
    if s != [] {
      AtWithout(s[1..], name, o);
      var rest := WithoutTable(s[1..], name);
      AtCons(s[0], s[1..], o);
      assert s == [s[0]] + s[1..];
      if s[0].name != name {
        AtCons(s[0], rest, o);
      } else {
        assert [] + rest == rest;
      }
    }
  }

  lemma AtCons(t: TableDef, s: seq<TableDef>, o: string)
    ensures BaselineTable([t] + s, o) == if t.name == o then Some(t) else BaselineTable(s, o)
  {
    assert ([t] + s)[1..] == s;
  }

  function Retargeted(t: Option<TableDef>, from: string, to: string): Option<TableDef> {
    match t
    case None => None
    case Some(d) => Some(RetargetTable(d, from, to))
  }

  lemma AtRename(s: seq<TableDef>, from: string, to: string, o: string)
    requires Wf(s) && from != to && ApplyAction(s, RenameTable(from, to)).Ok?
    ensures BaselineTable(s, from).Some? && BaselineTable(s, to).None?
    ensures BaselineTable(ApplyAction(s, RenameTable(from, to)).value, o) ==
            if o == to then Some(RetargetTable(BaselineTable(s, from).value.(name := to), from, to))
            else if o == from then None
            else Retargeted(BaselineTable(s, o), from, to)
  {
    var i, r := FindTable(s, from), ApplyAction(s, RenameTable(from, to)).value;
    assert forall j :: 0 <= j < |s| ==> r[j].name == if j == i then to else s[j].name;
    var k := FindTable(r, o);
    if k < |r| {
      assert k != i ==> FindTable(s, o) == k;
    } else if FindTable(s, o) < |s| {
      assert r[FindTable(s, o)].name == if FindTable(s, o) == i then to else o;
    }
  }

  /** What a table-local action does, table by table. */
  lemma AtLocal(s: seq<TableDef>, a: Action, o: string)
    requires IsTableLocal(a) && ApplyAction(s, a).Ok?
    ensures
      var t := BaselineTable(s, a.table);
      && t.Some? && ApplyToTable(t.value, a).Ok?
      && BaselineTable(ApplyAction(s, a).value, o) ==
         if o == a.table then Some(ApplyToTable(t.value, a).value) else BaselineTable(s, o)
  {
    var i := FindTable(s, a.table);
    LocalKeepsName(s[i], a);
    AtUpdate(s, ApplyToTable(s[i], a).value, o);
  }

  lemma LocalKeepsName(t: TableDef, a: Action)
    requires IsTableLocal(a) && ApplyToTable(t, a).Ok?
    ensures ApplyToTable(t, a).value.name == t.name
  {
  }

  /** An action leaves the tables it neither names nor retargets as they are. */
  lemma AtOther(s: seq<TableDef>, a: Action, o: string)
    requires ApplyAction(s, a).Ok? && !a.RenameTable? && !NamesTable(a, o)
    ensures BaselineTable(ApplyAction(s, a).value, o) == BaselineTable(s, o)
  {
    if IsTableLocal(a) {
      AtLocal(s, a, o);
    } else if a.CreateTable? {
      AtAppend(s, TableDef(a.table, a.columns, Promote(a.columns, a.constraints)), o);
    } else if a.DeleteTable? {
      AtWithout(s, a.table, o);
    }
  }

  // ---------------------------------------------------------------- inline references stay promoted

  /** Every inline foreign key has a constraint on its column. */
  ghost predicate SettledTable(t: TableDef) {
    forall i :: 0 <= i < |t.columns| && t.columns[i].reference.Some? ==> HasForeignKey(t.constraints, t.columns[i].name)
  }

  ghost predicate Settled(s: seq<TableDef>) {
    forall i :: 0 <= i < |s| ==> SettledTable(s[i])
  }

  lemma {:induction false} ReferencesPromoted(cols: seq<ColumnDef>, cs: seq<TableConstraint>)
    ensures forall i :: 0 <= i < |cols| && cols[i].reference.Some? ==>
      HasForeignKey(WithReferences(cols, cs), cols[i].name)
    ensures forall x :: HasForeignKey(cs, x) ==> HasForeignKey(WithReferences(cols, cs), x)
    decreases |cols|
  {
    if cols != [] {
      var c, rest := cols[0], cols[1..];
      if c.reference.Some? && !HasForeignKey(cs, c.name) {
        var added := OwnReference(c);
        assert (cs + [added])[|cs|] == added;
        forall x | HasForeignKey(cs, x) ensures HasForeignKey(cs + [added], x) {
          HasForeignKeyGrows(cs, [added], x);
        }
        assert HasForeignKey(cs + [added], c.name);
        ReferencesPromoted(rest, cs + [added]);
      } else {
        ReferencesPromoted(rest, cs);
      }
      forall i | 0 <= i < |cols| && cols[i].reference.Some?
        ensures HasForeignKey(WithReferences(cols, cs), cols[i].name)
      {
        if i > 0 {
          assert rest[i - 1] == cols[i];
        } else {
          assert HasForeignKey(WithReferences(cols, cs), c.name);
        }
      }
    }
  }

  lemma PromoteSettles(name: string, cols: seq<ColumnDef>, cs: seq<TableConstraint>)
    ensures SettledTable(TableDef(name, cols, Promote(cols, cs)))
  {
    var keyed := cs + NewKeys(cols, Plain(cs));
    var referring := WithReferences(cols, keyed);
    ReferencesPromoted(cols, keyed);
    forall i | 0 <= i < |cols| && cols[i].reference.Some? ensures HasForeignKey(Promote(cols, cs), cols[i].name) {
      HasForeignKeyGrows(referring, Grouped(Indexes, cols, Plain(referring)), cols[i].name);
    }
  }

  lemma {:induction false} HasForeignKeyWithout(cs: seq<TableConstraint>, c: TableConstraint, x: string)
    requires HasForeignKey(cs, x) && !(c.ForeignKey? && c.columns == [x])
    ensures HasForeignKey(WithoutConstraint(cs, c), x)
  {
    var i :| 0 <= i < |cs| && cs[i].ForeignKey? && cs[i].columns == [x];
    KeptMember(cs, c, cs[i]);
  }

  lemma {:induction false} KeptMember(cs: seq<TableConstraint>, c: TableConstraint, k: TableConstraint)
    requires k in cs && k != c
    ensures k in WithoutConstraint(cs, c)
  {
    if cs[0] != k {
      KeptMember(cs[1..], c, k);
    }
  }

  lemma {:induction false} ReplacedMember(cs: seq<TableConstraint>, c: TableConstraint, d: TableConstraint,
      k: TableConstraint)
    requires k in cs && k != c
    ensures k in ReplaceFirst(cs, c, d)
  {
    if cs[0] != k && cs[0] != c {
      ReplacedMember(cs[1..], c, d, k);
    }
  }

  lemma {:induction false} HasForeignKeyDrop(cs: seq<TableConstraint>, column: string, x: string)
    requires HasForeignKey(cs, x) && x != column
    ensures HasForeignKey(DropFromConstraints(cs, column), x)
  {
    var i :| 0 <= i < |cs| && cs[i].ForeignKey? && cs[i].columns == [x];
    var rest := DropFromConstraints(cs[1..], column);
    if i == 0 {
      assert [x][1..] == [] && WithoutName([x], column) == [x];
      assert DropFromConstraints(cs, column)[0].columns == [x];
    } else {
      assert cs[1..][i - 1] == cs[i];
      HasForeignKeyDrop(cs[1..], column, x);
      var j :| 0 <= j < |rest| && rest[j].ForeignKey? && rest[j].columns == [x];
      var r := DropFromConstraints(cs, column);
      assert r == rest || r[1..] == rest;
      if r != rest {
        assert r[j + 1] == rest[j];
      }
    }
  }

  lemma HasForeignKeyRename(cs: seq<TableConstraint>, from: string, to: string, x: string)
    requires HasForeignKey(cs, x)
    ensures HasForeignKey(RenameInConstraints(cs, from, to), if x == from then to else x)
  {
    var i :| 0 <= i < |cs| && cs[i].ForeignKey? && cs[i].columns == [x];
    assert RenameInConstraints(cs, from, to)[i].columns == RenameRefs([x], from, to) == [if x == from then to else x];
  }

  lemma ClearedReference(table: string, cols: seq<ColumnDef>, c: TableConstraint, i: nat)
    requires DistinctNames(cols) && i < |cols|
    requires ClearInline(table, cols, c)[i].reference.Some?
    ensures cols[i].reference.Some? && ClearInline(table, cols, c)[i].name == cols[i].name
    ensures !(c.ForeignKey? && cols[i].name in c.columns)
  {
    FindColumnAt(cols, i);
  }

  lemma LocalSettled(t: TableDef, a: Action)
    requires IsTableLocal(a) && WfTable(t) && SettledTable(t) && ApplyToTable(t, a).Ok?
    ensures SettledTable(ApplyToTable(t, a).value)
  {
    var r, cs := ApplyToTable(t, a).value, t.constraints;
    if a.AddColumn? {
      PromoteSettles(t.name, t.columns + [a.added], cs);
    } else {
      forall i | 0 <= i < |r.columns| && r.columns[i].reference.Some?
        ensures HasForeignKey(r.constraints, r.columns[i].name)
      {
        SettledColumn(t, a, i);
      }
    }
  }

  lemma SettledColumn(t: TableDef, a: Action, i: nat)
    requires IsTableLocal(a) && !a.AddColumn? && WfTable(t) && SettledTable(t) && ApplyToTable(t, a).Ok?
    requires var r := ApplyToTable(t, a).value; i < |r.columns| && r.columns[i].reference.Some?
    ensures var r := ApplyToTable(t, a).value; HasForeignKey(r.constraints, r.columns[i].name)
  {
    var r, cs := ApplyToTable(t, a).value, t.constraints;
    if a.DeleteColumn? {
      assert r.columns[i] in t.columns && r.columns[i].name != a.column;
      HasForeignKeyDrop(cs, a.column, r.columns[i].name);
    } else if a.RenameColumn? {
      SettledRename(t, a, i);
    } else if a.AddConstraint? {
      HasForeignKeyGrows(cs, [a.constraint], r.columns[i].name);
    } else if a.RemoveConstraint? {
      ClearedReference(a.table, t.columns, a.constraint, i);
      HasForeignKeyWithout(cs, a.constraint, r.columns[i].name);
    } else if a.ReplaceConstraint? {
      ClearedReference(a.table, t.columns, a.before, i);
      var j :| 0 <= j < |cs| && cs[j].ForeignKey? && cs[j].columns == [t.columns[i].name];
      ReplacedMember(cs, a.before, a.after, cs[j]);
    }
  }

  lemma SettledRename(t: TableDef, a: Action, i: nat)
    requires a.RenameColumn? && WfTable(t) && SettledTable(t) && ApplyToTable(t, a).Ok?
    requires i < |t.columns| && t.columns[i].reference.Some?
    ensures var r := ApplyToTable(t, a).value; HasForeignKey(r.constraints, r.columns[i].name)
  {
    HasForeignKeyRename(t.constraints, a.from, a.to, t.columns[i].name);
    var k := FindColumn(t.columns, a.from);
    if i != k {
      assert t.columns[i].name != t.columns[k].name;
    }
  }

  lemma SettledRetarget(t: TableDef, from: string, to: string)
    requires SettledTable(t)
    ensures SettledTable(RetargetTable(t, from, to))
  {
    RetargetIsMap(t, from, to);
    forall i | 0 <= i < |t.columns| && t.columns[i].reference.Some?
      ensures HasForeignKey(RetargetTable(t, from, to).constraints, t.columns[i].name)
    {
      HasForeignKeyMapped(Retargeting(from, to), t.constraints, t.columns[i].name);
    }
  }

  /** Replay never leaves an inline foreign key unpromoted. */
  lemma StepSettled(s: seq<TableDef>, a: Action)
    requires Wf(s) && Settled(s) && ApplyAction(s, a).Ok?
    ensures Settled(ApplyAction(s, a).value)
  {
    var r := ApplyAction(s, a).value;
    if IsTableLocal(a) {
      LocalSettled(s[FindTable(s, a.table)], a);
    } else if a.CreateTable? {
      PromoteSettles(a.table, a.columns, a.constraints);
    } else if a.RenameTable? {
      var i := FindTable(s, a.from);
      forall j | 0 <= j < |r| ensures SettledTable(r[j]) {
        assert SettledTable(s[j]);
        SettledRetarget(s[i := s[i].(name := a.to)][j], a.from, a.to);
      }
    } else if a.DeleteTable? {
      forall j | 0 <= j < |r| ensures SettledTable(r[j]) {
        assert r[j] in s;
      }
    }
  }

  // ---------------------------------------------------------------- tables beside a table rename

  ghost predicate MovedAt(from: string, to: string, t: Option<TableDef>, u: Option<TableDef>) {
    && (t.Some? <==> u.Some?)
    && (t.Some? ==> u.value == RetargetTable(t.value, from, to))
  }

  /** Every table but the two is in `w` what it is in `s`, with its foreign keys to `from` pointing at
      `to`. */
  ghost predicate Moved(from: string, to: string, s: seq<TableDef>, w: seq<TableDef>) {
    forall o :: o != from && o != to ==> MovedAt(from, to, BaselineTable(s, o), BaselineTable(w, o))
  }

  predicate PointsTo(c: TableConstraint, table: string) {
    c.ForeignKey? && c.refTable == table
  }

  predicate NonePointsTo(cs: seq<TableConstraint>, table: string) {
    forall i :: 0 <= i < |cs| ==> !PointsTo(cs[i], table)
  }

  predicate NoneRefersTo(cols: seq<ColumnDef>, table: string) {
    forall i :: 0 <= i < |cols| && cols[i].reference.Some? ==> cols[i].reference.value.table != table
  }

  /** Beside the two tables, the action handles no foreign key to either and brings in none to the
      old one; on the two tables it replaces no constraint; and it renames neither. */
  predicate Bystander(a: Action, from: string, to: string) {
    if a.RenameTable? then a.from != from && a.from != to && a.to != from && a.to != to
    else if a.RawSql? || a.DataMigration? then true
    else if a.table == from || a.table == to then !a.ReplaceConstraint?
    else
      && (a.CreateTable? ==> NonePointsTo(a.constraints, from) && NoneRefersTo(a.columns, from))
      && (a.AddColumn? ==> NoneRefersTo([a.added], from))
      && (a.AddConstraint? || a.RemoveConstraint? ==> !PointsTo(a.constraint, from) && !PointsTo(a.constraint, to))
      && (a.ReplaceConstraint? ==> !PointsTo(a.before, from) && !PointsTo(a.before, to) && !PointsTo(a.after, from))
  }

  lemma NothingToRetarget(cs: seq<TableConstraint>, from: string, to: string)
    requires NonePointsTo(cs, from)
    ensures MapRefs(Retargeting(from, to), cs) == cs
  {
  }

  lemma LocalMoved(from: string, to: string, t: TableDef, a: Action)
    requires IsTableLocal(a) && a.table != from && a.table != to && Bystander(a, from, to) && SettledTable(t)
    ensures
      var r, q := ApplyToTable(t, a), ApplyToTable(RetargetTable(t, from, to), a);
      (r.Ok? <==> q.Ok?) && (r.Ok? ==> q.value == RetargetTable(r.value, from, to))
  {
    var f, u := Retargeting(from, to), RetargetTable(t, from, to);
    RetargetIsMap(t, from, to);
    assert MapAction(f, a.table, a) == a;
    if a.AddColumn? {
      assert [a.added][0] == a.added;
      AddedFixed(f, t, a.added);
    }
    LocalMapped(f, t, u, a, a.table);
    var r := ApplyToTable(t, a);
    if r.Ok? {
      LocalKeepsName(t, a);
      RetargetIsMap(r.value, from, to);
    }
  }

  lemma AddedFixed(f: Renaming, t: TableDef, added: ColumnDef)
    requires SettledTable(t)
    requires added.reference.Some? ==> f(added.reference.value.table) == added.reference.value.table
    ensures RefsFixed(f, t.columns + [added], t.constraints)
  {
  }

  lemma CreateMoved(from: string, to: string, a: Action)
    requires a.CreateTable? && a.table != from && a.table != to && Bystander(a, from, to)
    ensures var t := TableDef(a.table, a.columns, Promote(a.columns, a.constraints)); RetargetTable(t, from, to) == t
  {
    var f := Retargeting(from, to);
    NothingToRetarget(a.constraints, from, to);
    PromoteMapped(f, a.columns, a.constraints);
    RetargetIsMap(TableDef(a.table, a.columns, Promote(a.columns, a.constraints)), from, to);
  }

  lemma RetargetsCommute(t: TableDef, from: string, to: string, x: string, y: string)
    requires x != from && x != to && y != from && y != to
    ensures RetargetTable(RetargetTable(t, from, to), x, y) == RetargetTable(RetargetTable(t, x, y), from, to)
  {
  }

  lemma RenameMovedAt(from: string, to: string, s: seq<TableDef>, w: seq<TableDef>, a: Action, o: string)
    requires Wf(s) && Wf(w) && Moved(from, to, s, w) && a.RenameTable? && a.from != a.to && Bystander(a, from, to)
    requires ApplyAction(s, a).Ok? && ApplyAction(w, a).Ok? && o != from && o != to
    ensures MovedAt(from, to, BaselineTable(ApplyAction(s, a).value, o), BaselineTable(ApplyAction(w, a).value, o))
  {
    AtRename(s, a.from, a.to, o);
    AtRename(w, a.from, a.to, o);
    assert MovedAt(from, to, BaselineTable(s, o), BaselineTable(w, o));
    assert MovedAt(from, to, BaselineTable(s, a.from), BaselineTable(w, a.from));
    if o == a.to {
      RetargetsCommute(BaselineTable(s, a.from).value.(name := a.to), from, to, a.from, a.to);
    } else if o != a.from && BaselineTable(s, o).Some? {
      RetargetsCommute(BaselineTable(s, o).value, from, to, a.from, a.to);
    }
  }

  lemma LocalMovedAt(from: string, to: string, s: seq<TableDef>, w: seq<TableDef>, a: Action)
    requires Settled(s) && Moved(from, to, s, w) && Bystander(a, from, to) && IsTableLocal(a) && a.table != from
    requires a.table != to
    requires ApplyAction(s, a).Ok?
    ensures ApplyAction(w, a).Ok?
    ensures forall o :: o != from && o != to ==>
      MovedAt(from, to, BaselineTable(ApplyAction(s, a).value, o), BaselineTable(ApplyAction(w, a).value, o))
  {
    AtLocal(s, a, a.table);
    assert MovedAt(from, to, BaselineTable(s, a.table), BaselineTable(w, a.table));
    LocalMoved(from, to, BaselineTable(s, a.table).value, a);
    forall o | o != from && o != to
      ensures MovedAt(from, to, BaselineTable(ApplyAction(s, a).value, o), BaselineTable(ApplyAction(w, a).value, o))
    {
      AtLocal(s, a, o);
      AtLocal(w, a, o);
      assert MovedAt(from, to, BaselineTable(s, o), BaselineTable(w, o));
    }
  }

  /** A bystander keeps the correspondence, and finds the constraint it replaces. */
  lemma MovedStep(from: string, to: string, s: seq<TableDef>, w: seq<TableDef>, a: Action)
    requires Wf(s) && Wf(w) && Settled(s) && Moved(from, to, s, w) && Bystander(a, from, to)
    requires ApplyAction(s, a).Ok?
    ensures a.ReplaceConstraint? ==> ApplyAction(w, a).Ok?
    ensures ApplyAction(w, a).Ok? ==> Moved(from, to, ApplyAction(s, a).value, ApplyAction(w, a).value)
  {
    if IsTableLocal(a) && a.table != from && a.table != to {
      LocalMovedAt(from, to, s, w, a);
    } else if ApplyAction(w, a).Ok? {
      forall o | o != from && o != to
        ensures MovedAt(from, to, BaselineTable(ApplyAction(s, a).value, o), BaselineTable(ApplyAction(w, a).value, o))
      {
        assert MovedAt(from, to, BaselineTable(s, o), BaselineTable(w, o));
        if a.RenameTable? {
          RenameMovedAt(from, to, s, w, a, o);
        } else if !NamesTable(a, o) {
          AtOther(s, a, o);
          AtOther(w, a, o);
        } else {
          NamedMovedAt(from, to, s, w, a);
        }
      }
    }
  }

  lemma NamedMovedAt(from: string, to: string, s: seq<TableDef>, w: seq<TableDef>, a: Action)
    requires (a.CreateTable? || a.DeleteTable?) && a.table != from && a.table != to && Bystander(a, from, to)
    requires ApplyAction(s, a).Ok? && ApplyAction(w, a).Ok?
    ensures MovedAt(from, to, BaselineTable(ApplyAction(s, a).value, a.table),
      BaselineTable(ApplyAction(w, a).value, a.table))
  {
    if a.CreateTable? {
      var t := TableDef(a.table, a.columns, Promote(a.columns, a.constraints));
      AtAppend(s, t, a.table);
      AtAppend(w, t, a.table);
      CreateMoved(from, to, a);
    } else {
      AtWithout(s, a.table, a.table);
      AtWithout(w, a.table, a.table);
    }
  }

  predicate Bystanders(actions: seq<Action>, from: string, to: string) {
    forall i :: 0 <= i < |actions| ==> Bystander(actions[i], from, to)
  }

  /** Bystanders that replay on the one schema and whose view replays on the other replay there. */
  lemma {:induction false} MovedReplay(from: string, to: string, s: seq<TableDef>, w: seq<TableDef>,
      actions: seq<Action>)
    requires CleanReplay(s, actions) && Settled(s) && Wf(w) && Moved(from, to, s, w)
    requires Bystanders(actions, from, to) && ViewReplay(ViewSchema(w), actions).Some?
    ensures Replay(s, actions).Ok? && Replay(w, actions).Ok?
    ensures
      var s', w' := Replay(s, actions).value, Replay(w, actions).value;
      Wf(s') && Wf(w') && Settled(s') && Moved(from, to, s', w')
    decreases |actions|
  {
    if actions != [] {
      var a := actions[0];
      assert Bystander(a, from, to);
      StepSettled(s, a);
      MovedStep(from, to, s, w, a);
      StepRefines(w, a);
      var s1, w1 := ApplyAction(s, a).value, ApplyAction(w, a).value;
      MovedReplay(from, to, s1, w1, actions[1..]);
    }
  }

  // ---------------------------------------------------------------- the replay of a spliced plan

  lemma HeadOfConcat(xs: seq<Action>, ys: seq<Action>)
    requires xs != []
    ensures xs + ys != [] && (xs + ys)[0] == xs[0] && (xs + ys)[1..] == xs[1..] + ys
  {
  }

  lemma {:induction false} CleanConcat(s: seq<TableDef>, xs: seq<Action>, ys: seq<Action>)
    requires CleanReplay(s, xs + ys)
    ensures CleanReplay(s, xs) && Replay(s, xs).Ok? && CleanReplay(Replay(s, xs).value, ys)
    decreases |xs|
  {
    if xs == [] {
      assert xs + ys == ys;
    } else {
      HeadOfConcat(xs, ys);
      CleanConcat(ApplyAction(s, xs[0]).value, xs[1..], ys);
    }
  }

  lemma {:induction false} CleanSettled(s: seq<TableDef>, actions: seq<Action>)
    requires CleanReplay(s, actions) && Settled(s)
    ensures Replay(s, actions).Ok? && Wf(Replay(s, actions).value) && Settled(Replay(s, actions).value)
    decreases |actions|
  {
    if actions != [] {
      StepSettled(s, actions[0]);
      CleanSettled(ApplyAction(s, actions[0]).value, actions[1..]);
    }
  }

  /** The schemas before, behind the first, before the second and behind both of two actions. */
  datatype SchemaCut = SchemaCut(sA: seq<TableDef>, s1: seq<TableDef>, s2: seq<TableDef>, s3: seq<TableDef>)

  ghost predicate CutsSchemas(s: seq<TableDef>, actions: seq<Action>, lo: nat, hi: nat, c: SchemaCut)
    requires lo < hi < |actions|
  {
    && Replay(s, actions[..lo]) == Ok(c.sA) && ApplyAction(c.sA, actions[lo]) == Ok(c.s1)
    && Replay(c.s1, actions[lo + 1..hi]) == Ok(c.s2) && ApplyAction(c.s2, actions[hi]) == Ok(c.s3)
    && Replay(c.s3, actions[hi + 1..]) == Replay(s, actions)
    && CleanReplay(s, actions[..lo]) && CleanReplay(c.s1, actions[lo + 1..hi]) && CleanReplay(c.s3, actions[hi + 1..])
    && Wf(c.sA) && Wf(c.s2) && Settled(c.sA) && Settled(c.s1) && Settled(c.s3)
  }

  /** The schemas an original plan passes through around the matched pair. */
  lemma CleanCut(s: seq<TableDef>, actions: seq<Action>, lo: nat, hi: nat) returns (c: SchemaCut)
    requires lo < hi < |actions| && CleanReplay(s, actions) && Settled(s)
    ensures CutsSchemas(s, actions, lo, hi, c)
  {
    var tail := actions[lo + 1..];
    var sA, s1 := CleanCutAt(s, actions, lo);
    var s2, s3 := CleanCutAt(s1, tail, hi - lo - 1);
    c := SchemaCut(sA, s1, s2, s3);
    assert tail[..hi - lo - 1] == actions[lo + 1..hi] && tail[hi - lo - 1] == actions[hi]
      && tail[hi - lo..] == actions[hi + 1..];
  }

  ghost predicate CutsAt(s: seq<TableDef>, actions: seq<Action>, k: nat, sA: seq<TableDef>, s1: seq<TableDef>)
    requires k < |actions|
  {
    && Replay(s, actions[..k]) == Ok(sA) && ApplyAction(sA, actions[k]) == Ok(s1)
    && Replay(s1, actions[k + 1..]) == Replay(s, actions)
    && CleanReplay(s, actions[..k]) && CleanReplay(s1, actions[k + 1..])
    && Wf(sA) && Settled(sA) && Settled(s1)
  }

  /** The schemas before and behind one action of a plan that replays. */
  lemma CleanCutAt(s: seq<TableDef>, actions: seq<Action>, k: nat) returns (sA: seq<TableDef>, s1: seq<TableDef>)
    requires k < |actions| && CleanReplay(s, actions) && Settled(s)
    ensures CutsAt(s, actions, k, sA, s1)
  {
    var A, rest := actions[..k], actions[k..];
    assert actions == A + rest && rest[0] == actions[k] && rest[1..] == actions[k + 1..];
    CleanConcat(s, A, rest);
    ReplayConcat(s, A, rest);
    CleanSettled(s, A);
    sA := Replay(s, A).value;
    s1 := ApplyAction(sA, actions[k]).value;
    StepSettled(sA, actions[k]);
  }

  lemma SpliceParts(actions: seq<Action>, lo: nat, hi: nat, middle: seq<Action>)
    requires lo < hi < |actions|
    ensures Splice(actions, lo, hi, middle) == actions[..lo] + (middle + (actions[lo + 1..hi] + actions[hi + 1..]))
  {
  }

  lemma SpliceReplayed(s: seq<TableDef>, actions: seq<Action>, lo: nat, hi: nat, middle: seq<Action>,
      sA: seq<TableDef>, w1: seq<TableDef>, w2: seq<TableDef>)
    requires lo < hi < |actions|
    requires Replay(s, actions[..lo]) == Ok(sA) && Replay(sA, middle) == Ok(w1)
    requires Replay(w1, actions[lo + 1..hi]) == Ok(w2)
    ensures Replay(s, Splice(actions, lo, hi, middle)) == Replay(w2, actions[hi + 1..])
  {
    var A, B, C := actions[..lo], actions[lo + 1..hi], actions[hi + 1..];
    SpliceParts(actions, lo, hi, middle);
    ReplayConcat(s, A, middle + (B + C));
    ReplayConcat(sA, middle, B + C);
    ReplayConcat(w1, B, C);
  }

  lemma {:induction false} LocalReplayOthers(s: seq<TableDef>, actions: seq<Action>, t: string, o: string)
    requires LocalTo(t, actions) && o != t && Replay(s, actions).Ok?
    ensures BaselineTable(Replay(s, actions).value, o) == BaselineTable(s, o)
    decreases |actions|
  {
    if actions != [] {
      AtOther(s, actions[0], o);
      LocalReplayOthers(ApplyAction(s, actions[0]).value, actions[1..], t, o);
    }
  }

  // ---------------------------------------------------------------- table rename

  lemma TableReplacementShape(baseline: seq<TableDef>, from: string, to: string, created: Action)
    returns (rest: seq<Action>)
    requires Matches(AddOf(TableTarget(from), to), created) && Wf(baseline) && BaselineTable(baseline, from).Some?
    requires DistinctNames(created.columns) && AllInlineOk(created.columns)
    ensures Replacement(baseline, TableTarget(from), to, created) == [RenameTable(from, to)] + rest && LocalTo(to, rest)
  {
    var was := BaselineTable(baseline, from).value;
    var diff, cons := DiffColumns(to, was.columns, created.columns),
      DiffConstraints(to, was.constraints, created.constraints);
    rest := diff + cons;
    var m := DiffColumnsCorrect(to, was.columns, created.columns);
    ConstraintActionsLocal(to, was.constraints, created.constraints);
  }

  lemma MiddleMoved(sA: seq<TableDef>, s1: seq<TableDef>, w1: seq<TableDef>, x: Action, from: string, to: string,
      rest: seq<Action>)
    requires Wf(sA) && from != to && LocalTo(to, rest)
    requires x == DeleteTable(from) || (x.CreateTable? && x.table == to)
    requires ApplyAction(sA, x) == Ok(s1) && Replay(sA, [RenameTable(from, to)] + rest) == Ok(w1)
    ensures Moved(from, to, s1, w1)
  {
    assert ([RenameTable(from, to)] + rest)[1..] == rest;
    var renamed := ApplyAction(sA, RenameTable(from, to)).value;
    forall o | o != from && o != to ensures MovedAt(from, to, BaselineTable(s1, o), BaselineTable(w1, o)) {
      AtOther(sA, x, o);
      AtRename(sA, from, to, o);
      LocalReplayOthers(renamed, rest, to, o);
    }
  }

  lemma PairMoved(s2: seq<TableDef>, s3: seq<TableDef>, w2: seq<TableDef>, y: Action, from: string, to: string)
    requires y == DeleteTable(from) || (y.CreateTable? && y.table == to)
    requires ApplyAction(s2, y) == Ok(s3) && Moved(from, to, s2, w2)
    ensures Moved(from, to, s3, w2)
  {
    forall o | o != from && o != to ensures MovedAt(from, to, BaselineTable(s3, o), BaselineTable(w2, o)) {
      AtOther(s2, y, o);
      assert MovedAt(from, to, BaselineTable(s2, o), BaselineTable(w2, o));
    }
  }

  /** The rewritten plan passes through these views and ends as the original one. */
  ghost predicate RewritesThrough(v: View, actions: seq<Action>, lo: nat, hi: nat, middle: seq<Action>,
      vA: View, w1: View, w2: View)
    requires lo < hi < |actions|
  {
    && ViewReplay(v, actions[..lo]) == Some(vA) && ViewReplay(vA, middle) == Some(w1)
    && ViewReplay(w1, actions[lo + 1..hi]) == Some(w2)
    && ViewReplay(w2, actions[hi + 1..]) == ViewReplay(v, actions)
  }

  lemma TableRewriteViews(baseline: seq<TableDef>, actions: seq<Action>, lo: nat, hi: nat, from: string,
      created: Action)
    returns (vA: View, w1: View, w2: View)
    requires Wf(baseline) && TablePairAt(actions, lo, hi, from, created)
    requires ViewReplay(ViewSchema(baseline), actions).Some?
    requires BaselineTable(baseline, from).Some? ==>
      NoZeroClash(BaselineTable(baseline, from).value.columns, created.columns)
    ensures RewritesThrough(ViewSchema(baseline), actions, lo, hi,
      Replacement(baseline, TableTarget(from), created.table, created), vA, w1, w2)
    ensures BaselineTable(baseline, from).Some? && DistinctNames(created.columns) && AllInlineOk(created.columns)
  {
    var c := TableCut(ViewSchema(baseline), actions, lo, hi, from, created);
    vA := c.vA;
    var m := TableMiddle(vA, baseline, from, created.table, created);
    w1 := (vA - {from})[created.table := m];
    w2 := TableJoin(ViewSchema(baseline), c, actions[lo + 1..hi], from, created, m);
  }

  lemma TableReplayCore(baseline: seq<TableDef>, actions: seq<Action>, lo: nat, hi: nat, from: string, created: Action)
    requires CleanReplay(baseline, actions) && Settled(baseline) && TablePairAt(actions, lo, hi, from, created)
    requires Bystanders(actions[lo + 1..hi], from, created.table) && Bystanders(actions[hi + 1..], from, created.table)
    requires BaselineTable(baseline, from).Some? ==>
      NoZeroClash(BaselineTable(baseline, from).value.columns, created.columns)
    ensures
      var before := Replay(baseline, actions);
      var after := Replay(baseline, Splice(actions, lo, hi,
        Replacement(baseline, TableTarget(from), created.table, created)));
      before.Ok? && after.Ok? && Moved(from, created.table, before.value, after.value)
  {
    var to, middle := created.table, Replacement(baseline, TableTarget(from), created.table, created);
    CleanReplayView(baseline, actions);
    var vA, w1v, w2v := TableRewriteViews(baseline, actions, lo, hi, from, created);
    var c := CleanCut(baseline, actions, lo, hi);
    var sA, s1, s2, s3 := c.sA, c.s1, c.s2, c.s3;
    CleanReplayView(baseline, actions[..lo]);
    ViewReplayRefined(sA, middle);
    var w1 := Replay(sA, middle).value;
    var rest := TableReplacementShape(baseline, from, to, created);
    MiddleMoved(sA, s1, w1, actions[lo], from, to, rest);
    MovedReplay(from, to, s1, w1, actions[lo + 1..hi]);
    var w2 := Replay(w1, actions[lo + 1..hi]).value;
    ViewReplayRefined(w1, actions[lo + 1..hi]);
    PairMoved(s2, s3, w2, actions[hi], from, to);
    MovedReplay(from, to, s3, w2, actions[hi + 1..]);
    SpliceReplayed(baseline, actions, lo, hi, middle, sA, w1, w2);
  }

  /** Every action behind the earlier of the pair, the pair aside, is a bystander. */
  ghost predicate TableBystanders(actions: seq<Action>, from: string, to: string) {
    var d, c := Position(actions, DropOf(TableTarget(from))), Position(actions, AddOf(TableTarget(from), to));
    forall k :: 0 <= k < |actions| && (k > d || k > c) && k != d && k != c ==> Bystander(actions[k], from, to)
  }

  /** A plan that replays, with an isolated pair behind which there are only bystanders. */
  ghost predicate TableApt(baseline: seq<TableDef>, actions: seq<Action>, from: string, to: string) {
    && CleanReplay(baseline, actions) && Settled(baseline)
    && TablePairIsolated(actions, from, to) && from != to && TableBystanders(actions, from, to)
    && var was, created := BaselineTable(baseline, from), actions[Position(actions, AddOf(TableTarget(from), to))];
       was.Some? ==> NoZeroClash(was.value.columns, created.columns)
  }

  /** A rewritten plan replays although it replaces constraints, as long as none of them is a foreign
      key to one of the two tables or a constraint on one of them. It ends with the same column view,
      and with every other table as in the original plan but for its foreign keys to the old table,
      which point at the new one. */
  lemma TableRenameReplays(baseline: seq<TableDef>, actions: seq<Action>, from: string, to: string)
    requires TableApt(baseline, actions, from, to)
    ensures Rewrite(actions, baseline, TableTarget(from), to).Ok?
    ensures
      var before, after := Replay(baseline, actions),
        Replay(baseline, Rewrite(actions, baseline, TableTarget(from), to).value);
      && before.Ok? && after.Ok?
      && ViewSchema(after.value) == ViewSchema(before.value)
      && forall o :: o != from && o != to ==>
        BaselineTable(after.value, o) == Retargeted(BaselineTable(before.value, o), from, to)
  {
    var lo, hi, created := TablePairCut(actions, baseline, from, to);
    BystandersBehind(actions, lo, hi, from, to);
    TableReplayCore(baseline, actions, lo, hi, from, created);
    TableRenamePreservesMeaning(baseline, actions, from, to);
    var before, after := Replay(baseline, actions),
      Replay(baseline, Rewrite(actions, baseline, TableTarget(from), to).value);
    forall o | o != from && o != to
      ensures BaselineTable(after.value, o) == Retargeted(BaselineTable(before.value, o), from, to)
    {
      assert MovedAt(from, to, BaselineTable(before.value, o), BaselineTable(after.value, o));
    }
  }

  lemma BystanderAt(actions: seq<Action>, k: nat, from: string, to: string)
    requires TableBystanders(actions, from, to) && k < |actions|
    requires k > Position(actions, DropOf(TableTarget(from))) || k > Position(actions, AddOf(TableTarget(from), to))
    requires k != Position(actions, DropOf(TableTarget(from))) && k != Position(actions, AddOf(TableTarget(from), to))
    ensures Bystander(actions[k], from, to)
  {
  }

  lemma BystandersBehind(actions: seq<Action>, lo: nat, hi: nat, from: string, to: string)
    requires TableBystanders(actions, from, to) && lo < hi < |actions|
    requires Places(lo, hi, Position(actions, DropOf(TableTarget(from))),
      Position(actions, AddOf(TableTarget(from), to)))
    ensures Bystanders(actions[lo + 1..hi], from, to) && Bystanders(actions[hi + 1..], from, to)
  {
    var d, c := Position(actions, DropOf(TableTarget(from))), Position(actions, AddOf(TableTarget(from), to));
    BystandersAmong(actions, lo + 1, hi, d, c, from, to);
    BystandersAmong(actions, hi + 1, |actions|, d, c, from, to);
    UpToEnd(actions, hi + 1);
  }

  lemma UpToEnd(actions: seq<Action>, lo: nat)
    requires lo <= |actions|
    ensures actions[lo..|actions|] == actions[lo..]
  {
  }

  lemma BystandersAmong(actions: seq<Action>, lo: nat, hi: nat, d: nat, c: nat, from: string, to: string)
    requires TableBystanders(actions, from, to) && lo <= hi <= |actions|
    requires d == Position(actions, DropOf(TableTarget(from))) && c == Position(actions, AddOf(TableTarget(from), to))
    requires (d < lo || c < lo) && !(lo <= d < hi) && !(lo <= c < hi)
    ensures Bystanders(actions[lo..hi], from, to)
  {
    forall i | 0 <= i < hi - lo ensures Bystander(actions[lo..hi][i], from, to) {
      BystanderAt(actions, lo + i, from, to);
      assert actions[lo..hi][i] == actions[lo + i];
    }
  }

  lemma PositionSnoc(actions: seq<Action>, last: Action, k: Key)
    requires Position(actions, k) < |actions|
    ensures Position(actions + [last], k) == Position(actions, k)
  {
    var i, j, more := Position(actions, k), Position(actions + [last], k), actions + [last];
    assert more[i] == actions[i];
  }

  /** An action appended behind the pair stays behind the rewritten plan. */
  lemma RewriteSnoc(actions: seq<Action>, last: Action, baseline: seq<TableDef>, source: DropTarget, target: string)
    requires Rewrite(actions, baseline, source, target).Ok?
    ensures Rewrite(actions + [last], baseline, source, target) ==
      Ok(Rewrite(actions, baseline, source, target).value + [last])
  {
    PositionSnoc(actions, last, DropOf(source));
    PositionSnoc(actions, last, AddOf(source, target));
    var d, a := Position(actions, DropOf(source)), Position(actions, AddOf(source, target));
    assert (actions + [last])[a] == actions[a] && d != a;
    SpliceSnoc(actions, last, if d < a then d else a, if d < a then a else d,
      Replacement(baseline, source, target, actions[a]));
  }

  lemma SpliceSnoc(actions: seq<Action>, last: Action, lo: nat, hi: nat, middle: seq<Action>)
    requires lo < hi < |actions|
    ensures Splice(actions + [last], lo, hi, middle) == Splice(actions, lo, hi, middle) + [last]
  {
    var more := actions + [last];
    assert more[..lo] == actions[..lo] && more[lo + 1..hi] == actions[lo + 1..hi]
      && more[hi + 1..] == actions[hi + 1..] + [last];
  }

  lemma RetargetedMember(cs: seq<TableConstraint>, from: string, to: string, k: TableConstraint)
    requires from != to && k in cs
    ensures k in MapRefs(Retargeting(from, to), cs) <==> !PointsTo(k, from)
  {
    var i :| 0 <= i < |cs| && cs[i] == k;
    assert MapRefs(Retargeting(from, to), cs)[i] == MapRef(Retargeting(from, to), k);
  }

  lemma ReplaceRetargeted(s: seq<TableDef>, w: seq<TableDef>, from: string, to: string,
      other: string, key: TableConstraint, newKey: TableConstraint)
    requires from != to && BaselineTable(w, other) == Retargeted(BaselineTable(s, other), from, to)
    requires ApplyAction(s, ReplaceConstraint(other, key, newKey)).Ok?
    ensures ApplyAction(w, ReplaceConstraint(other, key, newKey)).Ok? <==> !PointsTo(key, from)
  {
    var t := s[FindTable(s, other)];
    RetargetIsMap(t, from, to);
    RetargetedMember(t.constraints, from, to, key);
  }

  /** After any such plan, replacing one more constraint of another table works in the rewritten plan
      exactly if the constraint is not a foreign key to the renamed table. */
  lemma ReplaceAfterTableRename(baseline: seq<TableDef>, actions: seq<Action>, from: string, to: string,
      other: string, key: TableConstraint, newKey: TableConstraint)
    requires TableApt(baseline, actions, from, to) && other != from && other != to
    requires Replay(baseline, actions + [ReplaceConstraint(other, key, newKey)]).Ok?
    ensures
      var rewritten := Rewrite(actions + [ReplaceConstraint(other, key, newKey)], baseline, TableTarget(from), to);
      rewritten.Ok? && (Replay(baseline, rewritten.value).Ok? <==> !PointsTo(key, from))
  {
    var last := ReplaceConstraint(other, key, newKey);
    TableRenameReplays(baseline, actions, from, to);
    var rewritten := Rewrite(actions, baseline, TableTarget(from), to).value;
    RewriteSnoc(actions, last, baseline, TableTarget(from), to);
    ReplaySnoc(baseline, actions, last);
    ReplaySnoc(baseline, rewritten, last);
    ReplaceRetargeted(Replay(baseline, actions).value, Replay(baseline, rewritten).value, from, to, other, key, newKey);
  }

  // ---------------------------------------------------------------- tables beside a column rename

  predicate MentionsColumn(c: TableConstraint, column: string) {
    (!c.Check? && column in c.columns) || (c.ForeignKey? && column in c.refColumns)
  }

  function Untouched(a: string, b: string): Selection {
    (c: TableConstraint) => !MentionsColumn(c, a) && !MentionsColumn(c, b)
  }

  /** The two schemas differ in table `t` at most; with `strict`, not even there in the constraints
      that mention neither column. */
  ghost predicate Beside(t: string, a: string, b: string, strict: bool, s: seq<TableDef>, w: seq<TableDef>) {
    && (forall o :: o != t ==> BaselineTable(s, o) == BaselineTable(w, o))
    && (BaselineTable(s, t).Some? <==> BaselineTable(w, t).Some?)
    && (strict && BaselineTable(s, t).Some? ==>
         Filter(Untouched(a, b), BaselineTable(s, t).value.constraints) ==
           Filter(Untouched(a, b), BaselineTable(w, t).value.constraints))
  }

  /** Renames neither to nor from `t`. On `t` it replaces no constraint; or, with `strict`, none that
      mentions one of the columns, and it handles neither of them and adds none. */
  predicate Neighbour(act: Action, t: string, a: string, b: string, strict: bool) {
    if act.RenameTable? then act.from != t && act.to != t
    else if act.RawSql? || act.DataMigration? || act.table != t then true
    else if !strict then !act.ReplaceConstraint?
    else
      && !act.AddColumn?
      && (act.DeleteColumn? ==> act.column != a && act.column != b)
      && (act.RenameColumn? ==> act.from != a && act.from != b && act.to != a && act.to != b)
      && (act.ReplaceConstraint? ==> Untouched(a, b)(act.before))
  }

  lemma {:induction false} WithoutNameMember(names: seq<string>, x: string, y: string)
    ensures y in WithoutName(names, x) <==> y in names && y != x
  {
    if names != [] {
      WithoutNameMember(names[1..], x, y);
    }
  }

  lemma RenameRefsMember(names: seq<string>, x: string, y: string, z: string)
    requires z != x && z != y
    ensures z in RenameRefs(names, x, y) <==> z in names
  {
    if z in names {
      var i :| 0 <= i < |names| && names[i] == z;
      assert RenameRefs(names, x, y)[i] == z;
    }
  }

  lemma UntouchedDrop(cs: seq<TableConstraint>, a: string, b: string, x: string)
    requires x != a && x != b
    ensures Filter(Untouched(a, b), DropFromConstraints(cs, x)) == DropFromConstraints(Filter(Untouched(a, b), cs), x)
  {
    var keep := Untouched(a, b);
    forall c: TableConstraint | !c.Check? && WithoutName(c.columns, x) != []
      ensures keep(c.(columns := WithoutName(c.columns, x))) == keep(c)
    {
      WithoutNameMember(c.columns, x, a);
      WithoutNameMember(c.columns, x, b);
    }
    FilterDrop(keep, cs, x);
  }

  lemma UntouchedRename(cs: seq<TableConstraint>, a: string, b: string, x: string, y: string)
    requires x != a && x != b && y != a && y != b
    ensures Filter(Untouched(a, b), RenameInConstraints(cs, x, y)) ==
      RenameInConstraints(Filter(Untouched(a, b), cs), x, y)
  {
    var keep := Untouched(a, b);
    forall c ensures keep(RenameInConstraint(c, x, y)) == keep(c) {
      MentionsRenamed(c, x, y, a);
      MentionsRenamed(c, x, y, b);
    }
    FilterRename(keep, cs, x, y);
  }

  lemma MentionsRenamed(c: TableConstraint, x: string, y: string, z: string)
    requires z != x && z != y
    ensures MentionsColumn(RenameInConstraint(c, x, y), z) <==> MentionsColumn(c, z)
  {
    if !c.Check? {
      RenameRefsMember(c.columns, x, y, z);
    }
    if c.ForeignKey? {
      RenameRefsMember(c.refColumns, x, y, z);
    }
  }

  ghost predicate BesideOutcome(a: string, b: string, r: Result<TableDef, PlannerError>, q: Result<TableDef,
      PlannerError>) {
    r.Ok? && q.Ok? ==> Filter(Untouched(a, b), r.value.constraints) == Filter(Untouched(a, b), q.value.constraints)
  }

  lemma NeighbourLocal(t: TableDef, u: TableDef, act: Action, a: string, b: string)
    requires IsTableLocal(act) && Neighbour(act, act.table, a, b, true)
    requires Filter(Untouched(a, b), t.constraints) == Filter(Untouched(a, b), u.constraints)
    ensures act.ReplaceConstraint? && ApplyToTable(t, act).Ok? ==> ApplyToTable(u, act).Ok?
    ensures BesideOutcome(a, b, ApplyToTable(t, act), ApplyToTable(u, act))
  {
    var keep, cs, ds := Untouched(a, b), t.constraints, u.constraints;
    if act.ReplaceConstraint? {
      FilterMember(keep, cs, act.before);
      FilterMember(keep, ds, act.before);
      FilterReplace(keep, cs, act.before, act.after);
      FilterReplace(keep, ds, act.before, act.after);
    } else if act.AddConstraint? {
      NeighbourAdd(cs, ds, act.constraint, keep);
    } else if act.RemoveConstraint? {
      FilterWithout(keep, cs, act.constraint);
      FilterWithout(keep, ds, act.constraint);
    } else if act.DeleteColumn? {
      UntouchedDrop(cs, a, b, act.column);
      UntouchedDrop(ds, a, b, act.column);
    } else if act.RenameColumn? {
      UntouchedRename(cs, a, b, act.from, act.to);
      UntouchedRename(ds, a, b, act.from, act.to);
    }
  }

  lemma NeighbourAdd(cs: seq<TableConstraint>, ds: seq<TableConstraint>, c: TableConstraint, keep: Selection)
    requires Filter(keep, cs) == Filter(keep, ds)
    ensures Filter(keep, if c in cs then cs else cs + [c]) == Filter(keep, if c in ds then ds else ds + [c])
  {
    FilterConcat(keep, cs, [c]);
    FilterConcat(keep, ds, [c]);
    FilterMember(keep, cs, c);
    FilterMember(keep, ds, c);
  }

  lemma UntouchedRetarget(t: TableDef, a: string, b: string, x: string, y: string)
    ensures Filter(Untouched(a, b), RetargetTable(t, x, y).constraints) ==
      MapRefs(Retargeting(x, y), Filter(Untouched(a, b), t.constraints))
  {
    RetargetIsMap(t, x, y);
    FilterMapped(Untouched(a, b), Retargeting(x, y), t.constraints);
  }

  lemma NeighbourRename(t: string, a: string, b: string, strict: bool, s: seq<TableDef>, w: seq<TableDef>, act: Action)
    requires Wf(s) && Wf(w) && Beside(t, a, b, strict, s, w) && act.RenameTable? && Neighbour(act, t, a, b, strict)
    requires ApplyAction(s, act).Ok? && ApplyAction(w, act).Ok?
    ensures Beside(t, a, b, strict, ApplyAction(s, act).value, ApplyAction(w, act).value)
  {
    var s', w' := ApplyAction(s, act).value, ApplyAction(w, act).value;
    forall o ensures o != t ==> BaselineTable(s', o) == BaselineTable(w', o) {
      AtRename(s, act.from, act.to, o);
      AtRename(w, act.from, act.to, o);
    }
    AtRename(s, act.from, act.to, t);
    AtRename(w, act.from, act.to, t);
    if strict && BaselineTable(s, t).Some? {
      UntouchedRetarget(BaselineTable(s, t).value, a, b, act.from, act.to);
      UntouchedRetarget(BaselineTable(w, t).value, a, b, act.from, act.to);
    }
  }

  /** What an action other than a table rename makes of one table depends on that table alone. */
  lemma AtAny(s: seq<TableDef>, w: seq<TableDef>, act: Action, o: string)
    requires !act.RenameTable? && BaselineTable(s, o) == BaselineTable(w, o)
    requires ApplyAction(s, act).Ok? && ApplyAction(w, act).Ok?
    ensures BaselineTable(ApplyAction(s, act).value, o) == BaselineTable(ApplyAction(w, act).value, o)
  {
    if !NamesTable(act, o) {
      AtOther(s, act, o);
      AtOther(w, act, o);
    } else if IsTableLocal(act) {
      AtLocal(s, act, o);
      AtLocal(w, act, o);
    } else {
      AtNamed(s, act);
      AtNamed(w, act);
    }
  }

  lemma AtNamed(s: seq<TableDef>, act: Action)
    requires (act.CreateTable? || act.DeleteTable?) && ApplyAction(s, act).Ok?
    ensures BaselineTable(ApplyAction(s, act).value, act.table) ==
            if act.DeleteTable? then None else Some(TableDef(act.table, act.columns,
              Promote(act.columns, act.constraints)))
  {
    if act.CreateTable? {
      AtAppend(s, TableDef(act.table, act.columns, Promote(act.columns, act.constraints)), act.table);
    } else {
      AtWithout(s, act.table, act.table);
    }
  }

  /** What happens to `t` itself. */
  lemma NeighbourOwn(t: string, a: string, b: string, strict: bool, s: seq<TableDef>, w: seq<TableDef>, act: Action)
    requires Beside(t, a, b, strict, s, w) && !act.RenameTable? && Neighbour(act, t, a, b, strict)
    requires ApplyAction(s, act).Ok? && ApplyAction(w, act).Ok?
    ensures
      var u, v := BaselineTable(ApplyAction(s, act).value, t), BaselineTable(ApplyAction(w, act).value, t);
      && (u.Some? <==> v.Some?)
      && (strict && u.Some? ==>
            Filter(Untouched(a, b), u.value.constraints) == Filter(Untouched(a, b), v.value.constraints))
  {
    if !NamesTable(act, t) {
      AtOther(s, act, t);
      AtOther(w, act, t);
    } else if IsTableLocal(act) {
      AtLocal(s, act, t);
      AtLocal(w, act, t);
      if strict {
        NeighbourLocal(BaselineTable(s, t).value, BaselineTable(w, t).value, act, a, b);
      }
    } else {
      AtNamed(s, act);
      AtNamed(w, act);
    }
  }

  lemma NeighbourStep(t: string, a: string, b: string, strict: bool, s: seq<TableDef>, w: seq<TableDef>, act: Action)
    requires Wf(s) && Wf(w) && Beside(t, a, b, strict, s, w) && Neighbour(act, t, a, b, strict)
    requires ApplyAction(s, act).Ok?
    ensures act.ReplaceConstraint? ==> ApplyAction(w, act).Ok?
    ensures ApplyAction(w, act).Ok? ==> Beside(t, a, b, strict, ApplyAction(s, act).value, ApplyAction(w, act).value)
  {
    if act.ReplaceConstraint? {
      AtLocal(s, act, act.table);
      if act.table == t {
        NeighbourLocal(BaselineTable(s, t).value, BaselineTable(w, t).value, act, a, b);
      }
      assert BaselineTable(w, act.table).Some?;
    }
    if ApplyAction(w, act).Ok? {
      if act.RenameTable? {
        NeighbourRename(t, a, b, strict, s, w, act);
      } else {
        forall o | o != t
          ensures BaselineTable(ApplyAction(s, act).value, o) == BaselineTable(ApplyAction(w, act).value, o)
        {
          AtAny(s, w, act, o);
        }
        NeighbourOwn(t, a, b, strict, s, w, act);
      }
    }
  }

  predicate Neighbours(actions: seq<Action>, t: string, a: string, b: string, strict: bool) {
    forall i :: 0 <= i < |actions| ==> Neighbour(actions[i], t, a, b, strict)
  }

  lemma {:induction false} NeighbourReplay(t: string, a: string, b: string, strict: bool,
      s: seq<TableDef>, w: seq<TableDef>, actions: seq<Action>)
    requires CleanReplay(s, actions) && Wf(w) && Beside(t, a, b, strict, s, w)
    requires Neighbours(actions, t, a, b, strict) && ViewReplay(ViewSchema(w), actions).Some?
    ensures Replay(s, actions).Ok? && Replay(w, actions).Ok?
    ensures
      var s', w' := Replay(s, actions).value, Replay(w, actions).value;
      Wf(w') && Beside(t, a, b, strict, s', w')
    decreases |actions|
  {
    if actions != [] {
      assert Neighbour(actions[0], t, a, b, strict);
      NeighbourStep(t, a, b, strict, s, w, actions[0]);
      StepRefines(w, actions[0]);
      NeighbourReplay(t, a, b, strict, ApplyAction(s, actions[0]).value, ApplyAction(w, actions[0]).value,
        actions[1..]);
    }
  }

  // ---------------------------------------------------------------- column rename

  /** Constraints of a table, none if there is no such table. */
  function ConstraintsOf(s: seq<TableDef>, t: string): seq<TableConstraint> {
    var d := BaselineTable(s, t);
    if d.Some? then d.value.constraints else []
  }

  lemma {:induction false} EditsKeepConstraints(s: seq<TableDef>, actions: seq<Action>, t: string)
    requires forall i :: 0 <= i < |actions| ==> IsColumnEdit(actions[i]) && actions[i].table == t
    requires Replay(s, actions).Ok?
    ensures ConstraintsOf(Replay(s, actions).value, t) == ConstraintsOf(s, t)
    decreases |actions|
  {
    if actions != [] {
      AtLocal(s, actions[0], t);
      EditsKeepConstraints(ApplyAction(s, actions[0]).value, actions[1..], t);
    }
  }

  lemma ColumnReplacementShape(baseline: seq<TableDef>, t: string, from: string, to: string, added: Action)
    returns (rest: seq<Action>)
    requires Matches(AddOf(ColumnTarget(t, from), to), added)
    ensures Replacement(baseline, ColumnTarget(t, from), to, added) == [RenameColumn(t, from, to)] + rest
    ensures forall i :: 0 <= i < |rest| ==> IsColumnEdit(rest[i]) && rest[i].table == t
  {
    var was := BaselineColumn(baseline, t, from);
    rest := if was.Some? then EditActions(t, was.value, added.added) else [];
  }

  /** The rename and its edits leave the table there and the others as they are. */
  lemma ColumnMiddleTables(sA: seq<TableDef>, w1: seq<TableDef>, t: string, from: string, to: string, rest: seq<Action>)
    requires forall i :: 0 <= i < |rest| ==> IsColumnEdit(rest[i]) && rest[i].table == t
    requires Replay(sA, [RenameColumn(t, from, to)] + rest) == Ok(w1)
    ensures BaselineTable(sA, t).Some? && BaselineTable(w1, t).Some?
    ensures forall o :: o != t ==> BaselineTable(w1, o) == BaselineTable(sA, o)
  {
    var a := RenameColumn(t, from, to);
    assert ([a] + rest)[1..] == rest;
    var renamed := ApplyAction(sA, a).value;
    AtLocal(sA, a, t);
    EditsKeepTable(renamed, rest, t);
    forall o | o != t ensures BaselineTable(w1, o) == BaselineTable(sA, o) {
      AtLocal(sA, a, o);
      LocalReplayOthers(renamed, rest, t, o);
    }
  }

  lemma ColumnMiddleConstraints(sA: seq<TableDef>, w1: seq<TableDef>, t: string, from: string, to: string,
      rest: seq<Action>)
    requires forall i :: 0 <= i < |rest| ==> IsColumnEdit(rest[i]) && rest[i].table == t
    requires Replay(sA, [RenameColumn(t, from, to)] + rest) == Ok(w1)
    ensures ConstraintsOf(w1, t) == RenameInConstraints(ConstraintsOf(sA, t), from, to)
  {
    var a := RenameColumn(t, from, to);
    assert ([a] + rest)[1..] == rest;
    AtLocal(sA, a, t);
    EditsKeepConstraints(ApplyAction(sA, a).value, rest, t);
  }

  lemma {:induction false} EditsKeepTable(s: seq<TableDef>, actions: seq<Action>, t: string)
    requires forall i :: 0 <= i < |actions| ==> IsColumnEdit(actions[i]) && actions[i].table == t
    requires Replay(s, actions).Ok? && BaselineTable(s, t).Some?
    ensures BaselineTable(Replay(s, actions).value, t).Some?
    decreases |actions|
  {
    if actions != [] {
      AtLocal(s, actions[0], t);
      EditsKeepTable(ApplyAction(s, actions[0]).value, actions[1..], t);
    }
  }

  lemma UntouchedRenamed(cs: seq<TableConstraint>, a: string, b: string)
    ensures Filter(Untouched(a, b), RenameInConstraints(cs, a, b)) == Filter(Untouched(a, b), cs)
  {
    if cs != [] {
      RenameInCons(cs, a, b);
      UntouchedRenamed(cs[1..], a, b);
      OwnRename(cs[0], a, b);
    }
  }

  /** The rename leaves a constraint alone, or what it makes of it still mentions a column of the two. */
  lemma OwnRename(c: TableConstraint, a: string, b: string)
    ensures Untouched(a, b)(c) ==> RenameInConstraint(c, a, b) == c
    ensures Untouched(a, b)(RenameInConstraint(c, a, b)) <==> Untouched(a, b)(c)
  {
    var r := RenameInConstraint(c, a, b);
    if !c.Check? {
      OwnRenameRefs(c.columns, a, b);
    }
    if c.ForeignKey? {
      OwnRenameRefs(c.refColumns, a, b);
    }
  }

  lemma OwnRenameRefs(names: seq<string>, a: string, b: string)
    ensures a !in names && b !in names ==> RenameRefs(names, a, b) == names
    ensures a in RenameRefs(names, a, b) || b in RenameRefs(names, a, b) <==> a in names || b in names
  {
    var r := RenameRefs(names, a, b);
    if a in names {
      var i :| 0 <= i < |names| && names[i] == a;
      assert r[i] == b;
    }
    if b in names {
      var i :| 0 <= i < |names| && names[i] == b;
      assert r[i] == b;
    }
  }

  /** The action at position `i` leaves the constraints of `t` that mention neither column alone. */
  ghost predicate KeepsUntouched(s: seq<TableDef>, act: Action, t: string, a: string, b: string) {
    var r := ApplyAction(s, act);
    r.Ok? && Filter(Untouched(a, b), ConstraintsOf(r.value, t)) == Filter(Untouched(a, b), ConstraintsOf(s, t))
  }

  lemma PairBeside(s: seq<TableDef>, s': seq<TableDef>, w: seq<TableDef>, y: Action, t: string, a: string, b: string,
      strict: bool)
    requires IsTableLocal(y) && y.table == t && ApplyAction(s, y) == Ok(s') && Beside(t, a, b, strict, s, w)
    requires strict ==> KeepsUntouched(s, y, t, a, b)
    ensures Beside(t, a, b, strict, s', w)
  {
    AtLocal(s, y, t);
    forall o | o != t ensures BaselineTable(s', o) == BaselineTable(w, o) {
      AtLocal(s, y, o);
    }
  }

  lemma MiddleBeside(sA: seq<TableDef>, w1: seq<TableDef>, t: string, from: string, to: string, rest: seq<Action>,
      strict: bool)
    requires forall i :: 0 <= i < |rest| ==> IsColumnEdit(rest[i]) && rest[i].table == t
    requires Replay(sA, [RenameColumn(t, from, to)] + rest) == Ok(w1)
    ensures Beside(t, from, to, strict, sA, w1)
  {
    ColumnMiddleTables(sA, w1, t, from, to, rest);
    ColumnMiddleConstraints(sA, w1, t, from, to, rest);
    UntouchedRenamed(ConstraintsOf(sA, t), from, to);
  }

  lemma ColumnRewriteViews(baseline: seq<TableDef>, actions: seq<Action>, lo: nat, hi: nat, t: string, from: string,
      added: Action)
    returns (vA: View, w1: View, w2: View)
    requires Wf(baseline) && ColumnPairAt(actions, lo, hi, t, from, added)
    requires ViewReplay(ViewSchema(baseline), actions).Some?
    requires BaselineColumn(baseline, t, from).Some? ==>
      !ZeroClash(BaselineColumn(baseline, t, from).value.default, added.added.default)
    ensures RewritesThrough(ViewSchema(baseline), actions, lo, hi,
      Replacement(baseline, ColumnTarget(t, from), added.added.name, added), vA, w1, w2)
  {
    var c := ColumnCut(ViewSchema(baseline), actions, lo, hi, t, from, added);
    vA := c.vA;
    var was := ColumnMiddle(vA, baseline, t, from, added);
    w1 := vA[t := (vA[t] - {from})[added.added.name := Merged(was, added.added)]];
    w2 := ColumnJoin(ViewSchema(baseline), c, actions[lo + 1..hi], t, from, added, Merged(was, added.added));
  }

  /** `sA` and `w1` stand before and behind what a rewritten plan has in place of the pair, and the rest of it
      leads to a schema beside the original's. */
  ghost predicate RenamesBeside(baseline: seq<TableDef>, actions: seq<Action>, lo: nat, hi: nat, middle: seq<Action>,
      t: string, from: string, to: string, strict: bool, sA: seq<TableDef>, w1: seq<TableDef>)
    requires lo < hi < |actions|
  {
    var before, after := Replay(baseline, actions), Replay(w1, actions[lo + 1..hi] + actions[hi + 1..]);
    && Replay(baseline, actions[..lo]) == Ok(sA) && BaselineTable(sA, t).Some? && Replay(sA, middle) == Ok(w1)
    && before.Ok? && after.Ok? && Beside(t, from, to, strict, before.value, after.value)
    && Replay(baseline, Splice(actions, lo, hi, middle)) == after
  }

  /** Where the two schemas of a rewritten plan meet: after the rename, and at the end. */
  lemma ColumnReplayCore(baseline: seq<TableDef>, actions: seq<Action>, lo: nat, hi: nat, t: string, from: string,
      added: Action, strict: bool)
    returns (sA: seq<TableDef>, w1: seq<TableDef>)
    requires CleanReplay(baseline, actions) && Settled(baseline) && ColumnPairAt(actions, lo, hi, t, from, added)
    requires Neighbours(actions[lo + 1..hi], t, from, added.added.name, strict)
    requires Neighbours(actions[hi + 1..], t, from, added.added.name, strict)
    requires strict ==> PairKeepsUntouched(baseline, actions, lo, hi, t, from, added.added.name)
    requires BaselineColumn(baseline, t, from).Some? ==>
      !ZeroClash(BaselineColumn(baseline, t, from).value.default, added.added.default)
    ensures RenamesBeside(baseline, actions, lo, hi,
      Replacement(baseline, ColumnTarget(t, from), added.added.name, added), t, from, added.added.name, strict, sA, w1)
  {
    var to, middle := added.added.name, Replacement(baseline, ColumnTarget(t, from), added.added.name, added);
    var B, C := actions[lo + 1..hi], actions[hi + 1..];
    CleanReplayView(baseline, actions);
    var vA, w1v, w2v := ColumnRewriteViews(baseline, actions, lo, hi, t, from, added);
    var c := CleanCut(baseline, actions, lo, hi);
    sA := c.sA;
    var s1, s2, s3 := c.s1, c.s2, c.s3;
    PrefixTo(baseline, actions, lo, hi, sA, s1, s2);
    CleanReplayView(baseline, actions[..lo]);
    ViewReplayRefined(sA, middle);
    w1 := Replay(sA, middle).value;
    var rest := ColumnReplacementShape(baseline, t, from, to, added);
    ColumnMiddleTables(sA, w1, t, from, to, rest);
    MiddleBeside(sA, w1, t, from, to, rest, strict);
    PairBeside(sA, s1, w1, actions[lo], t, from, to, strict);
    NeighbourReplay(t, from, to, strict, s1, w1, B);
    var w2 := Replay(w1, B).value;
    ViewReplayRefined(w1, B);
    PairBeside(s2, s3, w2, actions[hi], t, from, to, strict);
    NeighbourReplay(t, from, to, strict, s3, w2, C);
    SpliceReplayed(baseline, actions, lo, hi, middle, sA, w1, w2);
    ReplayConcat(w1, B, C);
  }

  /** In the original plan, neither the drop nor the add changes a constraint of the table that
      mentions neither column. */
  ghost predicate PairKeepsUntouched(baseline: seq<TableDef>, actions: seq<Action>, lo: nat, hi: nat, t: string,
      a: string, b: string)
    requires lo < |actions| && hi < |actions|
  {
    var s, u := Replay(baseline, actions[..lo]), Replay(baseline, actions[..hi]);
    && s.Ok? && KeepsUntouched(s.value, actions[lo], t, a, b)
    && u.Ok? && KeepsUntouched(u.value, actions[hi], t, a, b)
  }

  lemma TakeParts(actions: seq<Action>, lo: nat, hi: nat)
    requires lo < hi <= |actions|
    ensures actions[..hi] == actions[..lo] + ([actions[lo]] + actions[lo + 1..hi])
  {
  }

  lemma PrefixTo(s: seq<TableDef>, actions: seq<Action>, lo: nat, hi: nat,
      sA: seq<TableDef>, s1: seq<TableDef>, s2: seq<TableDef>)
    requires lo < hi < |actions|
    requires Replay(s, actions[..lo]) == Ok(sA) && ApplyAction(sA, actions[lo]) == Ok(s1)
    requires Replay(s1, actions[lo + 1..hi]) == Ok(s2)
    ensures Replay(s, actions[..hi]) == Ok(s2)
  {
    var B := actions[lo + 1..hi];
    TakeParts(actions, lo, hi);
    ReplayConcat(s, actions[..lo], [actions[lo]] + B);
    ReplayStep(sA, actions[lo], s1, B);
  }

  ghost predicate ColumnNeighbours(actions: seq<Action>, t: string, from: string, to: string, strict: bool) {
    var d, c := Position(actions, DropOf(ColumnTarget(t, from))), Position(actions, AddOf(ColumnTarget(t, from), to));
    forall k :: 0 <= k < |actions| && (k > d || k > c) && k != d && k != c ==>
      Neighbour(actions[k], t, from, to, strict)
  }

  lemma NeighboursBehind(actions: seq<Action>, lo: nat, hi: nat, t: string, from: string, to: string, strict: bool)
    requires ColumnNeighbours(actions, t, from, to, strict) && lo < hi < |actions|
    requires Places(lo, hi, Position(actions, DropOf(ColumnTarget(t, from))),
      Position(actions, AddOf(ColumnTarget(t, from), to)))
    ensures Neighbours(actions[lo + 1..hi], t, from, to, strict) && Neighbours(actions[hi + 1..], t, from, to, strict)
  {
    var d, c := Position(actions, DropOf(ColumnTarget(t, from))), Position(actions, AddOf(ColumnTarget(t, from), to));
    var B, C := actions[lo + 1..hi], actions[hi + 1..];
    forall i | 0 <= i < |B| ensures Neighbour(B[i], t, from, to, strict) {
      assert B[i] == actions[lo + 1 + i];
    }
    forall i | 0 <= i < |C| ensures Neighbour(C[i], t, from, to, strict) {
      assert C[i] == actions[hi + 1 + i];
    }
  }

  /** A plan that replays, with an isolated pair of columns behind which there are only neighbours. With
      `strict` constraints of the table itself may be replaced. */
  ghost predicate ColumnApt(baseline: seq<TableDef>, actions: seq<Action>, t: string, from: string, to: string,
      strict: bool) {
    && CleanReplay(baseline, actions) && Settled(baseline)
    && ColumnPairIsolated(actions, t, from, to) && ColumnNeighbours(actions, t, from, to, strict)
    && var d, c := Position(actions, DropOf(ColumnTarget(t, from))),
      Position(actions, AddOf(ColumnTarget(t, from), to));
       && (strict ==> PairKeepsUntouched(baseline, actions, d, c, t, from, to))
       && var was := BaselineColumn(baseline, t, from);
          was.Some? ==> !ZeroClash(was.value.default, actions[c].added.default)
  }

  /** The same, with the pair at the two positions and in the rewritten plan. */
  ghost predicate RewritesBeside(baseline: seq<TableDef>, actions: seq<Action>, t: string, from: string, to: string,
      strict: bool, lo: nat, hi: nat, sA: seq<TableDef>, w1: seq<TableDef>)
  {
    var d, c := Position(actions, DropOf(ColumnTarget(t, from))), Position(actions, AddOf(ColumnTarget(t, from), to));
    && d < |actions| && c < |actions| && Places(lo, hi, d, c)
    && var middle := Replacement(baseline, ColumnTarget(t, from), to, actions[c]);
       && RenamesBeside(baseline, actions, lo, hi, middle, t, from, to, strict, sA, w1)
       && Rewrite(actions, baseline, ColumnTarget(t, from), to) == Ok(Splice(actions, lo, hi, middle))
  }

  lemma ColumnAptCore(baseline: seq<TableDef>, actions: seq<Action>, t: string, from: string, to: string, strict: bool)
    returns (lo: nat, hi: nat, sA: seq<TableDef>, w1: seq<TableDef>)
    requires ColumnApt(baseline, actions, t, from, to, strict)
    ensures RewritesBeside(baseline, actions, t, from, to, strict, lo, hi, sA, w1)
  {
    var added;
    lo, hi, added := ColumnPairCut(actions, baseline, t, from, to);
    NeighboursBehind(actions, lo, hi, t, from, to, strict);
    var d, c := Position(actions, DropOf(ColumnTarget(t, from))), Position(actions, AddOf(ColumnTarget(t, from), to));
    sA, w1 := ColumnReplayCore(baseline, actions, lo, hi, t, from, added, strict);
  }

  /** A rewritten plan replays although it replaces constraints: those of other tables always, and
      those of the table itself that mention neither column if the original drop and add leave such
      constraints alone. It ends with the same column view and with every other table unchanged. */
  lemma ColumnRenameReplays(baseline: seq<TableDef>, actions: seq<Action>, t: string, from: string, to: string,
      strict: bool)
    requires ColumnApt(baseline, actions, t, from, to, strict)
    ensures Rewrite(actions, baseline, ColumnTarget(t, from), to).Ok?
    ensures
      var before, after := Replay(baseline, actions),
        Replay(baseline, Rewrite(actions, baseline, ColumnTarget(t, from), to).value);
      && before.Ok? && after.Ok?
      && ViewSchema(after.value) == ViewSchema(before.value)
      && forall o :: o != t ==> BaselineTable(after.value, o) == BaselineTable(before.value, o)
  {
    var lo, hi, sA, w1 := ColumnAptCore(baseline, actions, t, from, to, strict);
    ColumnRenamePreservesMeaning(baseline, actions, t, from, to);
  }

  lemma ReplaceFinds(s: seq<TableDef>, t: string, key: TableConstraint, newKey: TableConstraint)
    ensures ApplyAction(s, ReplaceConstraint(t, key, newKey)).Ok? <==> key in ConstraintsOf(s, t)
  {
  }

  lemma PromoteKeeps(cols: seq<ColumnDef>, cs: seq<TableConstraint>, k: TableConstraint)
    requires k in cs
    ensures k in Promote(cols, cs)
  {
    ReferenceFrom(cols, cs + NewKeys(cols, Plain(cs)), k);
  }

  lemma DropShortens(a: string, x: string)
    requires a != x
    ensures DropFromConstraints([Index(None, [a, x])], a) == [Index(None, [x])]
  {
    assert [a, x][1..] == [x] && WithoutName([x], a) == [x];
    assert WithoutName([a, x], a) == [x];
  }

  lemma DropsFirst(d: TableDef, a: ColumnDef, x: ColumnDef)
    requires a.name != x.name && d.columns == [a, x] && d.constraints == [Index(None, [a.name, x.name])]
    ensures ApplyAction([d], DeleteColumn(d.name, a.name)) == Ok([TableDef(d.name, [x], [Index(None, [x.name])])])
  {
    DropShortens(a.name, x.name);
    assert [a, x][1..] == [x] && WithoutColumn([x], a.name) == [x];
    assert WithoutColumn([a, x], a.name) == [x];
    OneTable(d, DeleteColumn(d.name, a.name));
  }

  /** The original drop leaves an index over the other column, and the add keeps it. */
  lemma ShortenedIndexStays(t: string, a: ColumnDef, x: ColumnDef, b: ColumnDef)
    requires x.inlineOk && b.inlineOk && a.name != x.name && x.name != b.name
    ensures
      var r := Replay([TableDef(t, [a, x], [Index(None, [a.name, x.name])])],
        [DeleteColumn(t, a.name), AddColumn(t, b)]);
      r.Ok? && Index(None, [x.name]) in ConstraintsOf(r.value, t)
  {
    var d, e := TableDef(t, [a, x], [Index(None, [a.name, x.name])]), TableDef(t, [x], [Index(None, [x.name])]);
    var drop, add := DeleteColumn(t, a.name), AddColumn(t, b);
    DropsFirst(d, a, x);
    ReplayStep([d], drop, [e], [add]);
    assert [drop] + [add] == [drop, add];
    assert FindColumn([x], b.name) == 1 && AllInlineOk([x] + [b]);
    var g := TableDef(t, [x] + [b], Promote([x] + [b], e.constraints));
    OneTable(e, add);
    ReplayStep([e], add, [g], []);
    assert [add] + [] == [add];
    PromoteKeeps([x] + [b], e.constraints, Index(None, [x.name]));
    assert BaselineTable([g], t) == Some(g);
  }

  /** The rename keeps the index over both columns. */
  lemma RenamedIndexStays(t: string, a: ColumnDef, x: ColumnDef, b: string)
    requires a.default.None? && a.name != b
    ensures
      var baseline := [TableDef(t, [a, x], [Index(None, [a.name, x.name])])];
      var rewritten := Rewrite([DeleteColumn(t, a.name), AddColumn(t, a.(name := b))], baseline,
        ColumnTarget(t, a.name), b);
      && rewritten == Ok([RenameColumn(t, a.name, b)])
      && var r := Replay(baseline, rewritten.value);
         r.Ok? && BaselineTable(r.value, t).Some? && Index(None, [x.name]) !in ConstraintsOf(r.value, t)
  {
    var d, rename := TableDef(t, [a, x], [Index(None, [a.name, x.name])]), RenameColumn(t, a.name, b);
    var pair := [DeleteColumn(t, a.name), AddColumn(t, a.(name := b))];
    assert Position(pair, DropOf(ColumnTarget(t, a.name))) == 0
      && Position(pair, AddOf(ColumnTarget(t, a.name), b)) == 1 by {
      assert Matches(DropOf(ColumnTarget(t, a.name)), pair[0]) && Matches(AddOf(ColumnTarget(t, a.name), b), pair[1]);
    }
    assert BaselineColumn([d], t, a.name) == Some(a);
    assert Replacement([d], ColumnTarget(t, a.name), b, pair[1]) == [rename];
    assert Splice(pair, 0, 1, [rename]) == [rename];
    OneTable(d, rename);
    var r := ApplyToTable(d, rename).value;
    ReplayStep([d], rename, [r], []);
    assert [rename] + [] == [rename];
    assert r.constraints[0].columns == RenameRefs([a.name, x.name], a.name, b) && |r.constraints| == 1;
    assert BaselineTable([r], t) == Some(r);
  }

  /** Where it fails: dropping a column shortens an index over it, which a later action replaces;
      renaming the column does not. */
  lemma ShortenedIndexIsMissed(t: string, a: ColumnDef, x: ColumnDef, b: string, newKey: TableConstraint)
    requires a.inlineOk && x.inlineOk && a.default.None? && a.name != x.name && a.name != b && x.name != b
    ensures
      var baseline := [TableDef(t, [a, x], [Index(None, [a.name, x.name])])];
      var actions := [DeleteColumn(t, a.name), AddColumn(t, a.(name := b)),
        ReplaceConstraint(t, Index(None, [x.name]), newKey)];
      var rewritten := Rewrite(actions, baseline, ColumnTarget(t, a.name), b);
      && Replay(baseline, actions).Ok?
      && rewritten.Ok? && Replay(baseline, rewritten.value).Err?
  {
    var baseline := [TableDef(t, [a, x], [Index(None, [a.name, x.name])])];
    var pair, last := [DeleteColumn(t, a.name), AddColumn(t, a.(name := b))],
      ReplaceConstraint(t, Index(None, [x.name]), newKey);
    assert pair + [last] == [DeleteColumn(t, a.name), AddColumn(t, a.(name := b)), last];
    ShortenedIndexStays(t, a, x, a.(name := b));
    ReplaySnoc(baseline, pair, last);
    ReplaceFinds(Replay(baseline, pair).value, t, last.before, newKey);
    RenamedIndexStays(t, a, x, b);
    RewriteSnoc(pair, last, baseline, ColumnTarget(t, a.name), b);
    var rewritten := [RenameColumn(t, a.name, b)];
    ReplaySnoc(baseline, rewritten, last);
    ReplaceFinds(Replay(baseline, rewritten).value, t, last.before, newKey);
  }
}
