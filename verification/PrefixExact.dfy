/** When a replaced foreign key is found under a prefix: exactly if it is found without the foreign keys
    declared inline. */
module PrefixExact {
  import opened Common
  import opened Schema
  import opened References
  import opened Prefix

  // ---------------------------------------------------------------- a history without inline foreign keys

  function Bare(cols: seq<ColumnDef>): seq<ColumnDef> {
    seq(|cols|, i requires 0 <= i < |cols| => cols[i].(reference := None))
  }

  function BareAction(a: Action): Action {
    match a
    case CreateTable(t, cols, cs) => CreateTable(t, Bare(cols), cs)
    case AddColumn(t, c) => AddColumn(t, c.(reference := None))
    case _ => a
  }

  function BareActions(actions: seq<Action>): seq<Action> {
    seq(|actions|, i requires 0 <= i < |actions| => BareAction(actions[i]))
  }

  /** No inline foreign key points at a table whose name starts with the prefix already. */
  predicate Outside(p: string, cols: seq<ColumnDef>) {
    forall i :: 0 <= i < |cols| && cols[i].reference.Some? ==> !(p <= cols[i].reference.value.table)
  }

  predicate ActionOutside(p: string, a: Action) {
    (a.CreateTable? ==> Outside(p, a.columns)) && (a.AddColumn? ==> Outside(p, [a.added]))
  }

  /** The foreign keys of `cs` are in `ds` under the prefix, and no others are there under it. */
  ghost predicate KeysUnder(p: string, cs: seq<TableConstraint>, ds: seq<TableConstraint>) {
    forall k: TableConstraint :: k.ForeignKey? ==> (k in cs <==> MapRef(Prefixing(p), k) in ds)
  }

  /** `w` is the prefixed table, `z` the table without inline foreign keys. */
  ghost predicate Shadow(p: string, z: TableDef, w: TableDef) {
    && w.name == p + z.name && z.columns == Bare(w.columns) && Outside(p, w.columns)
    && Plain(w.constraints) == Plain(z.constraints) && KeysUnder(p, z.constraints, w.constraints)
  }

  ghost predicate Shadowed(p: string, zs: seq<TableDef>, ws: seq<TableDef>) {
    |zs| == |ws| && forall i :: 0 <= i < |zs| ==> Shadow(p, zs[i], ws[i])
  }

  // ---------------------------------------------------------------- columns without references

  lemma {:induction false} FindBare(cols: seq<ColumnDef>, name: string)
    ensures FindColumn(Bare(cols), name) == FindColumn(cols, name)
  {
    if cols != [] {
      assert Bare(cols)[1..] == Bare(cols[1..]);
      FindBare(cols[1..], name);
    }
  }

  lemma {:induction false} WithoutBare(cols: seq<ColumnDef>, name: string)
    ensures WithoutColumn(Bare(cols), name) == Bare(WithoutColumn(cols, name))
  {
    if cols != [] {
      BareTail(cols);
      WithoutBare(cols[1..], name);
      if cols[0].name != name {
        BareConcat([cols[0]], WithoutColumn(cols[1..], name));
      }
    }
  }

  lemma BareTail(cols: seq<ColumnDef>)
    requires cols != []
    ensures Bare(cols)[0] == cols[0].(reference := None) && Bare(cols)[1..] == Bare(cols[1..])
    ensures Bare([cols[0]]) == [Bare(cols)[0]]
  {
  }

  lemma BareConcat(xs: seq<ColumnDef>, ys: seq<ColumnDef>)
    ensures Bare(xs + ys) == Bare(xs) + Bare(ys)
  {
  }

  lemma BareUpdate(cols: seq<ColumnDef>, i: nat, c: ColumnDef)
    requires i < |cols|
    ensures Bare(cols[i := c]) == Bare(cols)[i := c.(reference := None)]
  {
  }

  lemma ClearBare(table: string, cols: seq<ColumnDef>, c: TableConstraint)
    ensures ClearInline(table, Bare(cols), c) == Bare(ClearInline(table, cols, c))
  {
    forall i | 0 <= i < |cols| ensures ClearInline(table, Bare(cols), c)[i] == Bare(ClearInline(table, cols, c))[i] {
      FindBare(cols, cols[i].name);
    }
  }

  /** The other constraints `normalize` yields do not depend on inline foreign keys. */
  lemma PlainPromoteBare(cols: seq<ColumnDef>, cs: seq<TableConstraint>, ds: seq<TableConstraint>)
    requires Plain(cs) == Plain(ds)
    ensures Plain(Promote(Bare(cols), cs)) == Plain(Promote(cols, ds))
  {
    SameKeys(Bare(cols), cols, Plain(cs));
    PlainPromote(Bare(cols), cs);
    PlainPromote(cols, ds);
  }

  // ---------------------------------------------------------------- foreign keys under constraint operations

  function Under(p: string, k: TableConstraint): TableConstraint {
    MapRef(Prefixing(p), k)
  }

  lemma UnderInjective(p: string, k: TableConstraint, l: TableConstraint)
    requires Under(p, k) == Under(p, l)
    ensures k == l
  {
    PrefixSeparates(p, k);
    MapRefInjective(Prefixing(p), k, l);
  }

  lemma KeysConcat(p: string, cs: seq<TableConstraint>, ds: seq<TableConstraint>, c: TableConstraint)
    requires KeysUnder(p, cs, ds)
    ensures KeysUnder(p, cs + [c], ds + [Under(p, c)])
  {
    forall k: TableConstraint | k.ForeignKey? ensures k in cs + [c] <==> Under(p, k) in ds + [Under(p, c)] {
      if Under(p, k) == Under(p, c) {
        UnderInjective(p, k, c);
      }
    }
  }

  lemma {:induction false} WithoutMember(cs: seq<TableConstraint>, c: TableConstraint, k: TableConstraint)
    ensures k in WithoutConstraint(cs, c) <==> k in cs && k != c
  {
    if cs != [] {
      WithoutMember(cs[1..], c, k);
    }
  }

  lemma KeysWithout(p: string, cs: seq<TableConstraint>, ds: seq<TableConstraint>, c: TableConstraint)
    requires KeysUnder(p, cs, ds)
    ensures KeysUnder(p, WithoutConstraint(cs, c), WithoutConstraint(ds, Under(p, c)))
  {
    forall k: TableConstraint | k.ForeignKey?
      ensures k in WithoutConstraint(cs, c) <==> Under(p, k) in WithoutConstraint(ds, Under(p, c))
    {
      WithoutMember(cs, c, k);
      WithoutMember(ds, Under(p, c), Under(p, k));
      if Under(p, k) == Under(p, c) {
        UnderInjective(p, k, c);
      }
    }
  }

  lemma {:induction false} ReplaceMember(cs: seq<TableConstraint>, c: TableConstraint, d: TableConstraint,
      k: TableConstraint)
    requires c in cs && k != c
    ensures k in ReplaceFirst(cs, c, d) <==> k in cs || k == d
  {
    if cs[0] != c {
      ReplaceMember(cs[1..], c, d, k);
    }
  }

  lemma KeysReplace(p: string, cs: seq<TableConstraint>, ds: seq<TableConstraint>, c: TableConstraint,
      d: TableConstraint)
    requires KeysUnder(p, cs, ds) && !c.ForeignKey? && c in cs && c in ds
    ensures KeysUnder(p, ReplaceFirst(cs, c, d), ReplaceFirst(ds, c, Under(p, d)))
  {
    forall k: TableConstraint | k.ForeignKey?
      ensures k in ReplaceFirst(cs, c, d) <==> Under(p, k) in ReplaceFirst(ds, c, Under(p, d))
    {
      ReplaceMember(cs, c, d, k);
      ReplaceMember(ds, c, Under(p, d), Under(p, k));
      if Under(p, k) == Under(p, d) {
        UnderInjective(p, k, d);
      }
    }
  }

  function Dropped(k: TableConstraint, column: string): TableConstraint {
    if k.Check? then k else k.(columns := WithoutName(k.columns, column))
  }

  lemma {:induction false} DropMember(cs: seq<TableConstraint>, column: string, k: TableConstraint)
    requires k.ForeignKey?
    ensures k in DropFromConstraints(cs, column) <==> k.columns != [] && exists c :: c in cs && Dropped(c, column) == k
  {
    if cs != [] {
      DropMember(cs[1..], column, k);
      assert forall c :: c in cs <==> c == cs[0] || c in cs[1..];
      if k in DropFromConstraints(cs, column) && k !in DropFromConstraints(cs[1..], column) {
        assert cs[0] in cs && Dropped(cs[0], column) == k;
      }
    }
  }

  lemma KeysDrop(p: string, cs: seq<TableConstraint>, ds: seq<TableConstraint>, column: string)
    requires KeysUnder(p, cs, ds)
    ensures KeysUnder(p, DropFromConstraints(cs, column), DropFromConstraints(ds, column))
  {
    forall k: TableConstraint | k.ForeignKey?
      ensures k in DropFromConstraints(cs, column) <==> Under(p, k) in DropFromConstraints(ds, column)
    {
      DropMember(cs, column, k);
      DropMember(ds, column, Under(p, k));
      if c :| c in cs && Dropped(c, column) == k {
        assert Under(p, c) in ds && Dropped(Under(p, c), column) == Under(p, k);
      }
      if d :| d in ds && Dropped(d, column) == Under(p, k) {
        var c := d.(refTable := k.refTable);
        assert Under(p, c) == d && Dropped(c, column) == k;
      }
    }
  }

  lemma KeysRename(p: string, cs: seq<TableConstraint>, ds: seq<TableConstraint>, from: string, to: string)
    requires KeysUnder(p, cs, ds)
    ensures KeysUnder(p, RenameInConstraints(cs, from, to), RenameInConstraints(ds, from, to))
  {
    var r, q := RenameInConstraints(cs, from, to), RenameInConstraints(ds, from, to);
    forall k: TableConstraint | k.ForeignKey? ensures k in r <==> Under(p, k) in q {
      if k in r {
        var i :| 0 <= i < |cs| && r[i] == k;
        assert cs[i] in cs && Under(p, cs[i]) in ds;
        var j :| 0 <= j < |ds| && ds[j] == Under(p, cs[i]);
        assert q[j] == Under(p, k);
      }
      if Under(p, k) in q {
        var j :| 0 <= j < |ds| && q[j] == Under(p, k);
        var c := ds[j].(refTable := k.refTable);
        assert ds[j] in ds && Under(p, c) == ds[j];
        var i :| 0 <= i < |cs| && cs[i] == c;
        assert r[i] == k;
      }
    }
  }

  lemma KeysRetarget(p: string, cs: seq<TableConstraint>, ds: seq<TableConstraint>, from: string, to: string)
    requires KeysUnder(p, cs, ds)
    ensures KeysUnder(p, MapRefs(Retargeting(from, to), cs), MapRefs(Retargeting(p + from, p + to), ds))
  {
    var r, q := MapRefs(Retargeting(from, to), cs), MapRefs(Retargeting(p + from, p + to), ds);
    forall k: TableConstraint | k.ForeignKey? ensures k in r <==> Under(p, k) in q {
      if k in r {
        var i :| 0 <= i < |cs| && r[i] == k;
        RetargetUnder(p, cs[i], from, to);
        assert cs[i] in cs && Under(p, cs[i]) in ds;
        var j :| 0 <= j < |ds| && ds[j] == Under(p, cs[i]);
        assert q[j] == Under(p, k);
      }
      if Under(p, k) in q {
        var j :| 0 <= j < |ds| && q[j] == Under(p, k);
        var c := ds[j].(refTable := if ds[j].refTable == p + from then from else k.refTable);
        RetargetUnder(p, c, from, to);
        assert ds[j] in ds && Under(p, c) == ds[j];
        var i :| 0 <= i < |cs| && cs[i] == c;
        UnderInjective(p, r[i], k);
      }
    }
  }

  lemma RetargetUnder(p: string, c: TableConstraint, from: string, to: string)
    ensures MapRef(Retargeting(p + from, p + to), Under(p, c)) == Under(p, MapRef(Retargeting(from, to), c))
  {
    if c.ForeignKey? && p + c.refTable == p + from {
      PrefixInjective(p, c.refTable, from);
    }
  }

  // ---------------------------------------------------------------- foreign keys under promotion

  lemma PromotedKeys(p: string, cols: seq<ColumnDef>, cs: seq<TableConstraint>, keys: seq<PlainConstraint>,
      indexes: seq<PlainConstraint>, k: TableConstraint)
    requires Outside(p, cols) && k.ForeignKey? && p <= k.refTable
    ensures k in WithReferences(cols, cs + keys) + indexes <==> k in cs
  {
    ReferenceFrom(cols, cs + keys, k);
    assert k in cs + keys <==> k in cs;
  }

  lemma BareReferences(cols: seq<ColumnDef>, cs: seq<TableConstraint>)
    ensures WithReferences(Bare(cols), cs) == cs
    decreases |cols|
  {
    if cols != [] {
      assert Bare(cols)[1..] == Bare(cols[1..]);
      BareReferences(cols[1..], cs);
    }
  }

  lemma KeysPromote(p: string, cols: seq<ColumnDef>, cs: seq<TableConstraint>, ds: seq<TableConstraint>)
    requires KeysUnder(p, cs, ds) && Outside(p, cols)
    ensures KeysUnder(p, Promote(Bare(cols), cs), Promote(cols, ds))
  {
    var keys, more := NewKeys(Bare(cols), Plain(cs)), NewKeys(cols, Plain(ds));
    BareReferences(cols, cs + keys);
    var referring := WithReferences(cols, ds + more);
    forall k: TableConstraint | k.ForeignKey?
      ensures k in Promote(Bare(cols), cs) <==> Under(p, k) in Promote(cols, ds)
    {
      PromotedKeys(p, cols, ds, more, Grouped(Indexes, cols, Plain(referring)), Under(p, k));
    }
  }

  // ---------------------------------------------------------------- one action

  ghost predicate ShadowOutcome(p: string, r: Result<TableDef, PlannerError>, q: Result<TableDef, PlannerError>) {
    (r.Ok? <==> q.Ok?) && (r.Ok? ==> Shadow(p, r.value, q.value))
  }

  lemma EditShadow(p: string, z: TableDef, w: TableDef, a: Action, table: string)
    requires Shadow(p, z, w) && IsColumnEdit(a)
    ensures ShadowOutcome(p, ApplyToTable(z, a), ApplyToTable(w, MapAction(Prefixing(p), table, a)))
  {
    var i, b := FindColumn(w.columns, a.column), MapAction(Prefixing(p), table, a);
    FindBare(w.columns, a.column);
    assert IsColumnEdit(b) && b.column == a.column;
    if i < |w.columns| {
      var c := w.columns[i];
      assert z.columns[i] == c.(reference := None);
      EditBare(p, table, c, a);
      BareUpdate(w.columns, i, EditColumn(c, b));
    }
  }

  lemma EditBare(p: string, table: string, c: ColumnDef, a: Action)
    requires IsColumnEdit(a)
    ensures
      var b := MapAction(Prefixing(p), table, a);
      && IsColumnEdit(b) && EditColumn(c, b).reference == c.reference
      && EditColumn(c.(reference := None), a) == EditColumn(c, b).(reference := None)
  {
  }

  lemma AddShadow(p: string, z: TableDef, w: TableDef, table: string, name: string, c: ColumnDef)
    requires Shadow(p, z, w) && Outside(p, [c])
    ensures ShadowOutcome(p, ApplyToTable(z, AddColumn(table, c.(reference := None))),
      ApplyToTable(w, AddColumn(name, c)))
  {
    var cols := w.columns + [c];
    FindBare(w.columns, c.name);
    BareConcat(w.columns, [c]);
    assert Bare([c]) == [c.(reference := None)];
    assert AllInlineOk(Bare(cols)) <==> AllInlineOk(cols) by {
      assert forall i :: 0 <= i < |cols| ==> Bare(cols)[i].inlineOk == cols[i].inlineOk;
    }
    OutsideConcat(p, w.columns, c);
    if FindColumn(w.columns, c.name) == |w.columns| && AllInlineOk(cols) {
      AddOutcome(z, table, c.(reference := None));
      AddOutcome(w, name, c);
      KeysPromote(p, cols, z.constraints, w.constraints);
      PlainPromoteBare(cols, z.constraints, w.constraints);
    }
  }

  lemma OutsideConcat(p: string, cols: seq<ColumnDef>, c: ColumnDef)
    requires Outside(p, cols) && Outside(p, [c])
    ensures Outside(p, cols + [c])
  {
    assert [c][0] == c;
  }

  lemma ColumnShadow(p: string, z: TableDef, w: TableDef, a: Action, table: string)
    requires Shadow(p, z, w) && (a.DeleteColumn? || a.RenameColumn?)
    ensures ShadowOutcome(p, ApplyToTable(z, a), ApplyToTable(w, MapAction(Prefixing(p), table, a)))
  {
    if a.DeleteColumn? {
      DropShadow(p, z, w, a.table, table, a.column);
    } else {
      RenameShadow(p, z, w, a.table, table, a.from, a.to);
    }
  }

  lemma DropShadow(p: string, z: TableDef, w: TableDef, x: string, y: string, column: string)
    requires Shadow(p, z, w)
    ensures ShadowOutcome(p, ApplyToTable(z, DeleteColumn(x, column)), ApplyToTable(w, DeleteColumn(y, column)))
  {
    DeleteOutcome(z, DeleteColumn(x, column));
    DeleteOutcome(w, DeleteColumn(y, column));
    FindBare(w.columns, column);
    DroppedShadow(p, z, w, column);
  }

  lemma DroppedShadow(p: string, z: TableDef, w: TableDef, column: string)
    requires Shadow(p, z, w)
    ensures Shadow(p,
      TableDef(z.name, WithoutColumn(z.columns, column), DropFromConstraints(z.constraints, column)),
      TableDef(w.name, WithoutColumn(w.columns, column), DropFromConstraints(w.constraints, column)))
  {
    WithoutBare(w.columns, column);
    PlainDrop(z.constraints, column);
    PlainDrop(w.constraints, column);
    KeysDrop(p, z.constraints, w.constraints, column);
    OutsideWithout(p, w.columns, column);
  }

  lemma {:induction false} OutsideWithout(p: string, cols: seq<ColumnDef>, column: string)
    requires Outside(p, cols)
    ensures Outside(p, WithoutColumn(cols, column))
  {
    if cols != [] {
      OutsideWithout(p, cols[1..], column);
    }
  }

  lemma RenameShadow(p: string, z: TableDef, w: TableDef, x: string, y: string, from: string, to: string)
    requires Shadow(p, z, w)
    ensures ShadowOutcome(p, ApplyToTable(z, RenameColumn(x, from, to)), ApplyToTable(w, RenameColumn(y, from, to)))
  {
    var cs, ds, cols := z.constraints, w.constraints, w.columns;
    FindBare(cols, from);
    PlainRename(cs, from, to);
    PlainRename(ds, from, to);
    KeysRename(p, cs, ds, from, to);
    var i := FindColumn(cols, from);
    if i < |cols| {
      BareUpdate(cols, i, cols[i].(name := to));
    }
  }

  lemma ClearedOutside(p: string, table: string, cols: seq<ColumnDef>, c: TableConstraint)
    requires Outside(p, cols)
    ensures Outside(p, ClearInline(table, cols, c))
  {
  }

  /** Both clear the same fields, up to inline foreign keys. */
  lemma ClearShadow(p: string, x: string, y: string, cols: seq<ColumnDef>, c: TableConstraint)
    requires ClearsAlike(x, y, c) && Outside(p, cols)
    ensures ClearInline(x, Bare(cols), c) == Bare(ClearInline(y, cols, Under(p, c)))
    ensures Outside(p, ClearInline(y, cols, Under(p, c)))
  {
    ClearedAlike(x, y, Bare(cols), c);
    ClearBare(y, cols, c);
    ClearedReferenceAlike(Prefixing(p), y, cols, c);
    ClearedOutside(p, y, cols, c);
  }

  lemma ConstraintShadow(p: string, z: TableDef, w: TableDef, a: Action, table: string)
    requires Shadow(p, z, w) && (a.AddConstraint? || a.RemoveConstraint? || a.ReplaceConstraint?)
    requires ActionClearsAlike(table, a)
    requires a.ReplaceConstraint? ==> !a.before.ForeignKey?
    ensures ShadowOutcome(p, ApplyToTable(z, a), ApplyToTable(w, MapAction(Prefixing(p), table, a)))
  {
    var cs, ds := z.constraints, w.constraints;
    if a.AddConstraint? {
      AddKeyShadow(p, cs, ds, a.constraint);
    } else if a.RemoveConstraint? {
      PlainRemove(cs, ds, a.constraint, Under(p, a.constraint));
      KeysWithout(p, cs, ds, a.constraint);
      ClearShadow(p, a.table, table, w.columns, a.constraint);
    } else {
      PlainReplace(cs, a.before, a.after);
      PlainReplace(ds, a.before, Under(p, a.after));
      if a.before in cs {
        KeysReplace(p, cs, ds, a.before, a.after);
        assert Plain([a.after]) == Plain([Under(p, a.after)]) by { PlainMapped(Prefixing(p), [a.after]); OneUnder(p,
          a.after); }
      }
      ClearShadow(p, a.table, table, w.columns, a.before);
    }
  }

  lemma OneUnder(p: string, c: TableConstraint)
    ensures MapRefs(Prefixing(p), [c]) == [Under(p, c)]
  {
  }

  lemma AddKeyShadow(p: string, cs: seq<TableConstraint>, ds: seq<TableConstraint>, c: TableConstraint)
    requires Plain(cs) == Plain(ds) && KeysUnder(p, cs, ds)
    ensures
      var r, q := if c in cs then cs else cs + [c], if Under(p, c) in ds then ds else ds + [Under(p, c)];
      Plain(r) == Plain(q) && KeysUnder(p, r, q)
  {
    PlainAdd(cs, ds, c, Under(p, c));
    KeysConcat(p, cs, ds, c);
    if !c.ForeignKey? {
      PlainReplace(cs, c, c);
      PlainReplace(ds, c, c);
    }
  }

  lemma LocalShadow(p: string, z: TableDef, w: TableDef, a: Action)
    requires Shadow(p, z, w) && IsTableLocal(a) && Covered(p, false, a) && ActionOutside(p, a)
    ensures ShadowOutcome(p, ApplyToTable(z, BareAction(a)), ApplyToTable(w, MapAction(Prefixing(p), p + a.table, a)))
  {
    if IsColumnEdit(a) {
      EditShadow(p, z, w, a, p + a.table);
    } else if a.AddColumn? {
      AddShadow(p, z, w, a.table, p + a.table, a.added);
    } else if a.DeleteColumn? || a.RenameColumn? {
      ColumnShadow(p, z, w, a, p + a.table);
    } else {
      ConstraintShadow(p, z, w, a, p + a.table);
    }
  }

  // ---------------------------------------------------------------- one action on a schema

  ghost predicate ShadowedOutcome(p: string, r: Result<seq<TableDef>, PlannerError>,
      q: Result<seq<TableDef>, PlannerError>)
  {
    (r.Ok? <==> q.Ok?) && (r.Ok? ==> Shadowed(p, r.value, q.value))
  }

  lemma FindShadowed(p: string, zs: seq<TableDef>, ws: seq<TableDef>, name: string)
    requires Shadowed(p, zs, ws)
    ensures FindTable(ws, p + name) == FindTable(zs, name)
  {
    assert forall i :: 0 <= i < |zs| ==> Shadow(p, zs[i], ws[i]);
    FindNamed(p, zs, ws, name);
  }

  lemma {:induction false} WithoutShadowed(p: string, zs: seq<TableDef>, ws: seq<TableDef>, name: string)
    requires Shadowed(p, zs, ws)
    ensures Shadowed(p, WithoutTable(zs, name), WithoutTable(ws, p + name))
  {
    if zs != [] {
      assert Shadow(p, zs[0], ws[0]);
      WithoutShadowed(p, zs[1..], ws[1..], name);
      if ws[0].name == p + name {
        PrefixInjective(p, zs[0].name, name);
      }
      ShadowedCons(p, zs[0], ws[0], WithoutTable(zs[1..], name), WithoutTable(ws[1..], p + name));
    }
  }

  lemma ShadowedCons(p: string, z: TableDef, w: TableDef, zs: seq<TableDef>, ws: seq<TableDef>)
    requires Shadow(p, z, w) && Shadowed(p, zs, ws)
    ensures Shadowed(p, [z] + zs, [w] + ws) && Shadowed(p, [] + zs, [] + ws)
  {
  }

  lemma CreateShadowed(p: string, zs: seq<TableDef>, ws: seq<TableDef>, table: string, cols: seq<ColumnDef>,
      cs: seq<TableConstraint>)
    requires Shadowed(p, zs, ws) && Outside(p, cols)
    ensures ShadowedOutcome(p, ApplyAction(zs, CreateTable(table, Bare(cols), cs)),
                            ApplyAction(ws, CreateTable(p + table, cols, MapRefs(Prefixing(p), cs))))
  {
    FindShadowed(p, zs, ws, table);
    assert AllInlineOk(Bare(cols)) <==> AllInlineOk(cols) by {
      assert forall i :: 0 <= i < |cols| ==> Bare(cols)[i].inlineOk == cols[i].inlineOk;
    }
    var ds := MapRefs(Prefixing(p), cs);
    PlainMapped(Prefixing(p), cs);
    MappedKeys(p, cs);
    KeysPromote(p, cols, cs, ds);
    PlainPromoteBare(cols, cs, ds);
    var z, w := TableDef(table, Bare(cols), Promote(Bare(cols), cs)), TableDef(p + table, cols, Promote(cols, ds));
    assert Shadow(p, z, w);
    ShadowedSnoc(p, zs, ws, z, w);
  }

  lemma MappedKeys(p: string, cs: seq<TableConstraint>)
    ensures KeysUnder(p, cs, MapRefs(Prefixing(p), cs))
  {
    forall k: TableConstraint | k.ForeignKey? ensures k in cs <==> Under(p, k) in MapRefs(Prefixing(p), cs) {
      PrefixSeparates(p, k);
      MemberMapped(Prefixing(p), cs, k);
    }
  }

  lemma ShadowedSnoc(p: string, zs: seq<TableDef>, ws: seq<TableDef>, z: TableDef, w: TableDef)
    requires Shadowed(p, zs, ws) && Shadow(p, z, w)
    ensures Shadowed(p, zs + [z], ws + [w])
  {
  }

  lemma RetargetShadow(p: string, z: TableDef, w: TableDef, from: string, to: string)
    requires Shadow(p, z, w)
    ensures Shadow(p, RetargetTable(z, from, to), RetargetTable(w, p + from, p + to))
  {
    RetargetIsMap(z, from, to);
    RetargetIsMap(w, p + from, p + to);
    PlainMapped(Retargeting(from, to), z.constraints);
    PlainMapped(Retargeting(p + from, p + to), w.constraints);
    KeysRetarget(p, z.constraints, w.constraints, from, to);
  }

  lemma RenameShadowed(p: string, zs: seq<TableDef>, ws: seq<TableDef>, from: string, to: string)
    requires Shadowed(p, zs, ws)
    ensures ShadowedOutcome(p, ApplyAction(zs, RenameTable(from, to)), ApplyAction(ws, RenameTable(p + from, p + to)))
  {
    FindShadowed(p, zs, ws, from);
    FindShadowed(p, zs, ws, to);
    var r, q := ApplyAction(zs, RenameTable(from, to)), ApplyAction(ws, RenameTable(p + from, p + to));
    if r.Ok? {
      var i := FindTable(zs, from);
      var z1, w1 := zs[i := zs[i].(name := to)], ws[i := ws[i].(name := p + to)];
      forall j | 0 <= j < |zs| ensures Shadow(p, r.value[j], q.value[j]) {
        assert Shadow(p, zs[j], ws[j]);
        RetargetShadow(p, z1[j], w1[j], from, to);
      }
    }
  }

  lemma LocalShadowed(p: string, zs: seq<TableDef>, ws: seq<TableDef>, a: Action)
    requires Shadowed(p, zs, ws) && IsTableLocal(a) && Covered(p, false, a) && ActionOutside(p, a)
    ensures ShadowedOutcome(p, ApplyAction(zs, BareAction(a)), ApplyAction(ws, MapAction(Prefixing(p), p + a.table, a)))
  {
    FindShadowed(p, zs, ws, a.table);
    var i := FindTable(zs, a.table);
    if i < |zs| {
      LocalShadow(p, zs[i], ws[i], a);
    }
  }

  lemma StepShadowed(p: string, zs: seq<TableDef>, ws: seq<TableDef>, a: Action)
    requires Shadowed(p, zs, ws) && Covered(p, false, a) && ActionOutside(p, a)
    ensures ShadowedOutcome(p, ApplyAction(zs, BareAction(a)), ApplyAction(ws, PrefixAction(p, a)))
  {
    if IsTableLocal(a) {
      PrefixActionIsMap(p, a);
      LocalShadowed(p, zs, ws, a);
    } else if a.CreateTable? {
      PrefixIsMap(p, a.constraints);
      assert p == "" ==> p + a.table == a.table && PrefixConstraints(p, a.constraints) == a.constraints;
      CreateShadowed(p, zs, ws, a.table, a.columns, a.constraints);
    } else if a.DeleteTable? {
      assert PrefixAction(p, a) == DeleteTable(p + a.table) by { assert p == "" ==> p + a.table == a.table; }
      WithoutShadowed(p, zs, ws, a.table);
    } else if a.RenameTable? {
      assert p == "" ==> p + a.from == a.from && p + a.to == a.to;
      RenameShadowed(p, zs, ws, a.from, a.to);
    }
  }

  lemma TailsOfActions(p: string, actions: seq<Action>)
    requires actions != []
    ensures |BareActions(actions)| == |actions| == |PrefixActions(p, actions)|
    ensures BareActions(actions)[0] == BareAction(actions[0])
    ensures PrefixActions(p, actions)[0] == PrefixAction(p, actions[0])
    ensures BareActions(actions)[1..] == BareActions(actions[1..])
    ensures PrefixActions(p, actions)[1..] == PrefixActions(p, actions[1..])
  {
  }

  lemma ReplayFirst(s: seq<TableDef>, actions: seq<Action>, a: Action, rest: seq<Action>)
    requires actions != [] && actions[0] == a && actions[1..] == rest
    ensures ApplyAction(s, a).Err? ==> Replay(s, actions).Err?
    ensures ApplyAction(s, a).Ok? ==> Replay(s, actions) == Replay(ApplyAction(s, a).value, rest)
  {
  }

  lemma {:induction false} ReplayShadowed(p: string, zs: seq<TableDef>, ws: seq<TableDef>, actions: seq<Action>)
    requires Shadowed(p, zs, ws)
    requires forall i :: 0 <= i < |actions| ==> Covered(p, false, actions[i]) && ActionOutside(p, actions[i])
    ensures ShadowedOutcome(p, Replay(zs, BareActions(actions)), Replay(ws, PrefixActions(p, actions)))
    decreases |actions|
  {
    if actions != [] {
      var a, rest := actions[0], actions[1..];
      StepShadowed(p, zs, ws, a);
      TailsOfActions(p, actions);
      ReplayFirst(zs, BareActions(actions), BareAction(a), BareActions(rest));
      ReplayFirst(ws, PrefixActions(p, actions), PrefixAction(p, a), PrefixActions(p, rest));
      var r, q := ApplyAction(zs, BareAction(a)), ApplyAction(ws, PrefixAction(p, a));
      if r.Ok? {
        ReplayShadowed(p, r.value, q.value, rest);
      }
    }
  }

  // ---------------------------------------------------------------- the replaced foreign key

  lemma KeyFound(p: string, zs: seq<TableDef>, ws: seq<TableDef>, table: string, key: TableConstraint,
      after: TableConstraint)
    requires Shadowed(p, zs, ws) && key.ForeignKey?
    ensures ApplyAction(zs, ReplaceConstraint(table, key, after)).Ok? <==>
            ApplyAction(ws, PrefixAction(p, ReplaceConstraint(table, key, after))).Ok?
  {
    var a := ReplaceConstraint(table, key, after);
    PrefixActionIsMap(p, a);
    FindShadowed(p, zs, ws, table);
    var i := FindTable(zs, table);
    if i < |zs| {
      assert Shadow(p, zs[i], ws[i]);
      assert key in zs[i].constraints <==> Under(p, key) in ws[i].constraints;
    }
  }

  /** After any history the prefix reaches, replacing one foreign key works under the prefix exactly if it
      works when the history declares no foreign key inline: that is, unless the key stems from an inline
      one. No inline key may name a table that starts with the prefix already. */
  lemma ReplacedUnderPrefix(p: string, actions: seq<Action>, table: string, key: TableConstraint,
      after: TableConstraint)
    requires forall i :: 0 <= i < |actions| ==> Covered(p, false, actions[i]) && ActionOutside(p, actions[i])
    requires key.ForeignKey?
    ensures
      var last := ReplaceConstraint(table, key, after);
      Replay([], PrefixActions(p, actions + [last])).Ok? <==> Replay([], BareActions(actions) + [last]).Ok?
  {
    var last := ReplaceConstraint(table, key, after);
    ReplayShadowed(p, [], [], actions);
    assert PrefixActions(p, actions + [last]) == PrefixActions(p, actions) + [PrefixAction(p, last)];
    ReplaySnoc([], PrefixActions(p, actions), PrefixAction(p, last));
    ReplaySnoc([], BareActions(actions), last);
    var r, q := Replay([], BareActions(actions)), Replay([], PrefixActions(p, actions));
    if r.Ok? {
      KeyFound(p, r.value, q.value, table, key, after);
    }
  }
}
