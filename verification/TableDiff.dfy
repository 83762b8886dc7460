/** The per-column and per-constraint diff that follows a table rename, and the edits that follow a
    column rename. */
module TableDiff {
  import opened Common
  import opened Schema
  import opened ColumnView

  /** The edits that bring `before` to the properties of `after`, addressed to `after`'s name. */
  function EditActions(table: string, before: ColumnDef, after: ColumnDef): seq<Action> {
    (if before.ty != after.ty then [ModifyColumnType(table, after.name, after.ty)] else []) +
    (if before.nullable != after.nullable then [ModifyColumnNullable(table, after.name, after.nullable)] else []) +
    (if !SameOptDefault(before.default, after.default)
     then [ModifyColumnDefault(table, after.name, RenderDefault(after.default))] else [])
  }

  /** A hash map collected from the list: a repeated name keeps its last column. */
  function ByName(cols: seq<ColumnDef>): map<string, ColumnDef> {
    if cols == [] then map[] else
    var last := cols[|cols| - 1];
    ByName(cols[..|cols| - 1])[last.name := last]
  }

  function DeleteActions(table: string, was: seq<ColumnDef>, keep: set<string>): seq<Action> {
    if was == [] then [] else
    var rest := DeleteActions(table, was[1..], keep);
    if was[0].name in keep then rest else [DeleteColumn(table, was[0].name)] + rest
  }

  function AddActions(table: string, now: seq<ColumnDef>, have: set<string>): seq<Action> {
    if now == [] then [] else
    var rest := AddActions(table, now[1..], have);
    if now[0].name in have then rest else [AddColumn(table, now[0])] + rest
  }

  function ModifyActions(table: string, now: seq<ColumnDef>, was: map<string, ColumnDef>): seq<Action> {
    if now == [] then [] else
    var c, rest := now[0], ModifyActions(table, now[1..], was);
    if c.name in was then EditActions(table, was[c.name], c) + rest else rest
  }

  /** `diff_table_columns`: drops, then adds, then property changes. */
  function DiffColumns(table: string, was: seq<ColumnDef>, now: seq<ColumnDef>): seq<Action> {
    DeleteActions(table, was, ByName(now).Keys)
    + AddActions(table, now, ByName(was).Keys)
    + ModifyActions(table, now, ByName(was))
  }

  function RemoveActions(table: string, was: seq<TableConstraint>, now: seq<TableConstraint>): seq<Action> {
    if was == [] then [] else
    var rest := RemoveActions(table, was[1..], now);
    if was[0] in now then rest else [RemoveConstraint(table, was[0])] + rest
  }

  function AddConstraintActions(table: string, now: seq<TableConstraint>, was: seq<TableConstraint>): seq<Action> {
    if now == [] then [] else
    var rest := AddConstraintActions(table, now[1..], was);
    if now[0] in was then rest else [AddConstraint(table, now[0])] + rest
  }

  /** `diff_table_constraints`. */
  function DiffConstraints(table: string, was: seq<TableConstraint>, now: seq<TableConstraint>): seq<Action> {
    RemoveActions(table, was, now) + AddConstraintActions(table, now, was)
  }

  // ---------------------------------------------------------------- replay inside one table

  predicate LocalTo(table: string, actions: seq<Action>) {
    forall i :: 0 <= i < |actions| ==> IsTableLocal(actions[i]) && actions[i].table == table
  }

  function ColReplay(m: Cols, actions: seq<Action>): Option<Cols>
    requires forall i :: 0 <= i < |actions| ==> IsTableLocal(actions[i])
    decreases |actions|
  {
    if actions == [] then Some(m) else
    match ColStep(m, actions[0])
    case None => None
    case Some(m') => ColReplay(m', actions[1..])
  }

  lemma {:induction false} ColReplayConcat(m: Cols, xs: seq<Action>, ys: seq<Action>)
    requires forall i :: 0 <= i < |xs| ==> IsTableLocal(xs[i])
    requires forall i :: 0 <= i < |ys| ==> IsTableLocal(ys[i])
    ensures ColReplay(m, xs + ys) == match ColReplay(m, xs) case None => None case Some(m') => ColReplay(m', ys)
    decreases |xs|
  {
    if xs == [] {
      assert xs + ys == ys;
    } else {
      assert (xs + ys)[1..] == xs[1..] + ys;
      var r := ColStep(m, xs[0]);
      if r.Some? {
        ColReplayConcat(r.value, xs[1..], ys);
      }
    }
  }

  /** Actions local to one table change that table's columns and no other table. */
  lemma {:induction false} LocalReplay(v: View, table: string, actions: seq<Action>)
    requires table in v && LocalTo(table, actions)
    ensures ViewReplay(v, actions) ==
            match ColReplay(v[table], actions) case None => None case Some(m) => Some(v[table := m])
    decreases |actions|
  {
    if actions == [] {
      assert v[table := v[table]] == v;
    } else {
      var r := ColStep(v[table], actions[0]);
      if r.Some? {
        LocalReplay(v[table := r.value], table, actions[1..]);
        var m := ColReplay(r.value, actions[1..]);
        assert m.Some? ==> v[table := r.value][table := m.value] == v[table := m.value];
      }
    }
  }

  /** The three kinds of column actions, and where they are from. */
  lemma {:induction false} DeletesAre(table: string, was: seq<ColumnDef>, keep: set<string>)
    ensures forall a :: a in DeleteActions(table, was, keep) ==> a.DeleteColumn? && a.table == table
  {
    if was != [] {
      DeletesAre(table, was[1..], keep);
    }
  }

  lemma {:induction false} AddsAre(table: string, now: seq<ColumnDef>, have: set<string>)
    ensures forall a :: a in AddActions(table, now, have) ==> a.AddColumn? && a.table == table && a.added in now
  {
    if now != [] {
      AddsAre(table, now[1..], have);
    }
  }

  lemma {:induction false} ModifiesAre(table: string, now: seq<ColumnDef>, was: map<string, ColumnDef>)
    ensures forall a :: a in ModifyActions(table, now, was) ==> IsColumnEdit(a) && a.table == table
  {
    if now != [] {
      ModifiesAre(table, now[1..], was);
    }
  }

  lemma ConstraintActionsLocal(table: string, was: seq<TableConstraint>, now: seq<TableConstraint>)
    ensures LocalTo(table, DiffConstraints(table, was, now))
    ensures NoReplace(DiffConstraints(table, was, now))
  {
    RemoveInvisible(table, was, now, map[]);
    AddInvisible(table, now, was, map[]);
  }

  /** Constraint actions do not touch the column view. */
  lemma DiffConstraintsInvisible(table: string, was: seq<TableConstraint>, now: seq<TableConstraint>, m: Cols)
    ensures LocalTo(table, DiffConstraints(table, was, now))
    ensures ColReplay(m, DiffConstraints(table, was, now)) == Some(m)
  {
    RemoveInvisible(table, was, now, m);
    AddInvisible(table, now, was, m);
    ColReplayConcat(m, RemoveActions(table, was, now), AddConstraintActions(table, now, was));
  }

  lemma {:induction false} RemoveInvisible(table: string, was: seq<TableConstraint>, now: seq<TableConstraint>, m: Cols)
    ensures var acts := RemoveActions(table, was, now);
      LocalTo(table, acts) && NoReplace(acts) && ColReplay(m, acts) == Some(m)
  {
    if was != [] {
      RemoveInvisible(table, was[1..], now, m);
      assert ([RemoveConstraint(table, was[0])] + RemoveActions(table, was[1..], now))[1..] ==
        RemoveActions(table, was[1..], now);
    }
  }

  lemma {:induction false} AddInvisible(table: string, now: seq<TableConstraint>, was: seq<TableConstraint>, m: Cols)
    ensures var acts := AddConstraintActions(table, now, was);
      LocalTo(table, acts) && NoReplace(acts) && ColReplay(m, acts) == Some(m)
  {
    if now != [] {
      AddInvisible(table, now[1..], was, m);
      assert ([AddConstraint(table, now[0])] + AddConstraintActions(table, now[1..], was))[1..] ==
        AddConstraintActions(table, now[1..], was);
    }
  }

  // ---------------------------------------------------------------- column diff correctness

  /** The two zeros compare equal as numbers and print differently. */
  predicate ZeroClash(a: Option<DefaultValue>, b: Option<DefaultValue>) {
    && a.Some? && b.Some? && a.value.FloatDefault? && b.value.FloatDefault?
    && IsZeroText(a.value.text) && IsZeroText(b.value.text) && a.value.text != b.value.text
  }

  /** What the edits make of a column that had the properties of `before`. */
  function Merged(before: ColumnDef, after: ColumnDef): (r: ColView)
    ensures r == ViewOf(after) <==> !ZeroClash(before.default, after.default)
  {
    ColView(after.ty, after.nullable,
            RenderDefault(if SameOptDefault(before.default, after.default) then before.default else after.default))
  }

  lemma EditActionsReplay(table: string, before: ColumnDef, after: ColumnDef, m: Cols)
    requires after.name in m && m[after.name] == ViewOf(before)
    ensures LocalTo(table, EditActions(table, before, after))
    ensures ColReplay(m, EditActions(table, before, after)) == Some(m[after.name := Merged(before, after)])
  {
    var n := after.name;
    var a1 := if before.ty != after.ty then [ModifyColumnType(table, n, after.ty)] else [];
    var a2 := if before.nullable != after.nullable then [ModifyColumnNullable(table, n, after.nullable)] else [];
    var a3 := if !SameOptDefault(before.default, after.default)
              then [ModifyColumnDefault(table, n, RenderDefault(after.default))] else [];
    var v0 := ViewOf(before);
    var v1 := v0.(ty := after.ty);
    var v2 := v1.(nullable := after.nullable);
    assert m[n := v0] == m;
    assert ColReplay(m[n := v0], a1) == Some(m[n := v1]) by { assert m[n := v0][n := v1] == m[n := v1]; }
    assert ColReplay(m[n := v1], a2) == Some(m[n := v2]) by { assert m[n := v1][n := v2] == m[n := v2]; }
    assert ColReplay(m[n := v2], a3) == Some(m[n := Merged(before, after)]) by {
      assert m[n := v2][n := Merged(before, after)] == m[n := Merged(before, after)];
    }
    ColReplayConcat(m, a1, a2);
    ColReplayConcat(m, a1 + a2, a3);
  }

  lemma {:induction false} ByNameFacts(cols: seq<ColumnDef>)
    requires DistinctNames(cols)
    ensures ByName(cols).Keys == ColNames(cols)
    ensures forall i :: 0 <= i < |cols| ==> cols[i].name in ByName(cols) && ByName(cols)[cols[i].name] == cols[i]
  {
    if cols != [] {
      var front := cols[..|cols| - 1];
      ByNameFacts(front);
      forall n | n in ColNames(cols) ensures n in ByName(cols) {
        var i :| 0 <= i < |cols| && cols[i].name == n;
        assert i < |front| ==> front[i] == cols[i];
      }
      forall i | 0 <= i < |cols|
        ensures cols[i].name in ByName(cols) && ByName(cols)[cols[i].name] == cols[i]
      {
        assert i < |front| ==> front[i] == cols[i];
      }
      forall n | n in ByName(cols) ensures n in ColNames(cols) {
        if n != cols[|cols| - 1].name {
          var i :| 0 <= i < |front| && front[i].name == n;
          assert cols[i].name == n;
        }
      }
    }
  }

  lemma ColNamesCons(cols: seq<ColumnDef>)
    requires cols != []
    ensures ColNames(cols) == {cols[0].name} + ColNames(cols[1..])
    ensures DistinctNames(cols) ==> cols[0].name !in ColNames(cols[1..])
  {
    forall n | n in ColNames(cols) ensures n in {cols[0].name} + ColNames(cols[1..]) {
      var i :| 0 <= i < |cols| && cols[i].name == n;
      assert i > 0 ==> cols[1..][i - 1].name == n;
    }
    forall n | n in ColNames(cols[1..]) ensures n in ColNames(cols) {
      var i :| 0 <= i < |cols| - 1 && cols[1..][i].name == n;
      assert cols[i + 1].name == n;
    }
    assert cols[0].name in ColNames(cols);
  }

  lemma {:induction false} DeletesReplay(table: string, was: seq<ColumnDef>, keep: set<string>, m: Cols)
    requires DistinctNames(was)
    requires forall i :: 0 <= i < |was| ==> was[i].name in m
    ensures LocalTo(table, DeleteActions(table, was, keep))
    ensures ColReplay(m, DeleteActions(table, was, keep)) == Some(m - (ColNames(was) - keep))
  {
    if was == [] {
      assert m - (ColNames(was) - keep) == m;
    } else {
      var rest, c := was[1..], was[0].name;
      ColNamesCons(was);
      var m1 := if c in keep then m else m - {c};
      DeletesReplay(table, rest, keep, m1);
      assert m1 - (ColNames(rest) - keep) == m - (ColNames(was) - keep);
      if c !in keep {
        assert DeleteActions(table, was, keep)[1..] == DeleteActions(table, rest, keep);
      }
    }
  }

  lemma {:induction false} AddsReplay(table: string, now: seq<ColumnDef>, have: set<string>, m: Cols) returns (r: Cols)
    requires DistinctNames(now)
    requires forall i :: 0 <= i < |now| && now[i].name !in have ==> now[i].name !in m && now[i].inlineOk
    ensures LocalTo(table, AddActions(table, now, have))
    ensures ColReplay(m, AddActions(table, now, have)) == Some(r)
    ensures r.Keys == m.Keys + (ColNames(now) - have)
    ensures forall i :: 0 <= i < |now| && now[i].name !in have ==> now[i].name in r && r[now[i].name] == ViewOf(now[i])
    ensures forall n :: n in m ==> n in r && r[n] == m[n]
  {
    if now == [] {
      r := m;
    } else {
      var rest, c := now[1..], now[0];
      assert forall i :: 0 < i < |now| ==> rest[i - 1] == now[i];
      ColNamesCons(now);
      var m1 := if c.name in have then m else m[c.name := ViewOf(c)];
      r := AddsReplay(table, rest, have, m1);
      if c.name !in have {
        assert AddActions(table, now, have)[1..] == AddActions(table, rest, have);
      }
      forall i | 0 <= i < |now| && now[i].name !in have
        ensures now[i].name in r && r[now[i].name] == ViewOf(now[i])
      {
        assert i > 0 ==> rest[i - 1] == now[i];
      }
    }
  }

  lemma {:induction false} ModifiesReplay(table: string, now: seq<ColumnDef>, was: map<string, ColumnDef>, m: Cols)
    returns (r: Cols)
    requires DistinctNames(now)
    requires forall i :: 0 <= i < |now| && now[i].name in was ==>
      now[i].name in m && m[now[i].name] == ViewOf(was[now[i].name])
    ensures LocalTo(table, ModifyActions(table, now, was))
    ensures ColReplay(m, ModifyActions(table, now, was)) == Some(r)
    ensures r.Keys == m.Keys
    ensures forall i :: 0 <= i < |now| && now[i].name in was ==> r[now[i].name] == Merged(was[now[i].name], now[i])
    ensures forall n :: n in m && (n !in ColNames(now) || n !in was) ==> r[n] == m[n]
  {
    if now == [] {
      r := m;
    } else {
      var rest, c := now[1..], now[0];
      assert forall i :: 0 < i < |now| ==> rest[i - 1] == now[i];
      ColNamesCons(now);
      var m1 := m;
      if c.name in was {
        EditActionsReplay(table, was[c.name], c, m);
        m1 := m[c.name := Merged(was[c.name], c)];
      }
      r := ModifiesReplay(table, rest, was, m1);
      if c.name in was {
        ColReplayConcat(m, EditActions(table, was[c.name], c), ModifyActions(table, rest, was));
      }
    }
  }

  ghost predicate NoZeroClash(was: seq<ColumnDef>, now: seq<ColumnDef>) {
    forall i, j :: 0 <= i < |was| && 0 <= j < |now| && was[i].name == now[j].name
      ==> !ZeroClash(was[i].default, now[j].default)
  }

  lemma ThreeParts(table: string, m: Cols, a: seq<Action>, b: seq<Action>, c: seq<Action>, m1: Cols, m2: Cols, r: Cols)
    requires LocalTo(table, a) && LocalTo(table, b) && LocalTo(table, c)
    requires ColReplay(m, a) == Some(m1) && ColReplay(m1, b) == Some(m2) && ColReplay(m2, c) == Some(r)
    ensures LocalTo(table, a + b + c) && ColReplay(m, a + b + c) == Some(r)
  {
    ColReplayConcat(m, a, b);
    ColReplayConcat(m, a + b, c);
  }

  lemma SharedColumns(was: seq<ColumnDef>, now: seq<ColumnDef>, m2: Cols)
    requires DistinctNames(was)
    requires forall n :: n in ColNames(was) && n in ColNames(now) ==> n in m2 && m2[n] == ColsOf(was)[n]
    requires forall i :: 0 <= i < |was| ==> was[i].name in ByName(was) && ByName(was)[was[i].name] == was[i]
    ensures forall j :: 0 <= j < |now| && now[j].name in ColNames(was) ==>
              now[j].name in ByName(was) && now[j].name in m2 && m2[now[j].name] == ViewOf(ByName(was)[now[j].name])
  {
    forall j | 0 <= j < |now| && now[j].name in ColNames(was)
      ensures now[j].name in ByName(was) && now[j].name in m2 && m2[now[j].name] == ViewOf(ByName(was)[now[j].name])
    {
      var i :| 0 <= i < |was| && was[i].name == now[j].name;
      ColsOfAt(was, i);
      assert now[j].name in ColNames(now);
    }
  }

  /** Every action of the diff meets its precondition when replayed from `was`, and the result is
      the view of `now` exactly when no shared column turns one float zero into the other. */
  lemma DiffColumnsCorrect(table: string, was: seq<ColumnDef>, now: seq<ColumnDef>) returns (r: Cols)
    requires DistinctNames(was) && DistinctNames(now)
    requires forall j :: 0 <= j < |now| && now[j].name !in ColNames(was) ==> now[j].inlineOk
    ensures LocalTo(table, DiffColumns(table, was, now))
    ensures ColReplay(ColsOf(was), DiffColumns(table, was, now)) == Some(r)
    ensures r.Keys == ColNames(now)
    ensures r == ColsOf(now) <==> NoZeroClash(was, now)
  {
    ByNameFacts(was);
    ByNameFacts(now);
    var m := ColsOf(was);
    DeletesReplay(table, was, ColNames(now), m);
    var m1 := m - (ColNames(was) - ColNames(now));
    var m2 := AddsReplay(table, now, ColNames(was), m1);
    SharedColumns(was, now, m2);
    r := ModifiesReplay(table, now, ByName(was), m2);
    ThreeParts(table, m, DeleteActions(table, was, ColNames(now)), AddActions(table, now, ColNames(was)),
               ModifyActions(table, now, ByName(was)), m1, m2, r);
    DiffTarget(was, now, r);
  }

  lemma DiffTarget(was: seq<ColumnDef>, now: seq<ColumnDef>, r: Cols)
    requires DistinctNames(was) && DistinctNames(now)
    requires r.Keys == ColNames(now)
    requires forall i :: 0 <= i < |was| ==> was[i].name in ByName(was) && ByName(was)[was[i].name] == was[i]
    requires ByName(was).Keys == ColNames(was)
    requires forall j :: 0 <= j < |now| ==>
               && now[j].name in r
               && r[now[j].name] == if now[j].name in ByName(was) then Merged(ByName(was)[now[j].name], now[j])
                 else ViewOf(now[j])
    ensures r == ColsOf(now) <==> NoZeroClash(was, now)
  {
    if NoZeroClash(was, now) {
      forall j | 0 <= j < |now| ensures now[j].name in r && r[now[j].name] == ViewOf(now[j]) {
        if now[j].name in ByName(was) {
          var i :| 0 <= i < |was| && was[i].name == now[j].name;
        }
      }
      ColsOfUnique(now, r);
    } else {
      var i, j :| 0 <= i < |was| && 0 <= j < |now| && was[i].name == now[j].name
        && ZeroClash(was[i].default, now[j].default);
      ColsOfAt(now, j);
      assert r[now[j].name] == Merged(was[i], now[j]);
    }
  }

  ghost predicate SameProperties(before: ColumnDef, after: ColumnDef) {
    before.ty == after.ty && before.nullable == after.nullable && SameOptDefault(before.default, after.default)
  }

  /** The diff is empty exactly when the two lists name the same columns with equal properties. */
  lemma DiffColumnsEmpty(table: string, was: seq<ColumnDef>, now: seq<ColumnDef>)
    requires DistinctNames(was) && DistinctNames(now)
    ensures DiffColumns(table, was, now) == [] <==>
      && ColNames(was) == ColNames(now)
      && forall i, j :: 0 <= i < |was| && 0 <= j < |now| && was[i].name == now[j].name ==>
        SameProperties(was[i], now[j])
  {
    ByNameFacts(was);
    ByNameFacts(now);
    DeletesEmpty(table, was, ColNames(now));
    AddsEmpty(table, now, ColNames(was));
    ModifiesEmpty(table, now, ByName(was));
    forall j | 0 <= j < |now| && now[j].name in ColNames(was)
      ensures exists i :: 0 <= i < |was| && was[i].name == now[j].name && ByName(was)[now[j].name] == was[i]
    {
      var i :| 0 <= i < |was| && was[i].name == now[j].name;
    }
  }

  lemma {:induction false} DeletesEmpty(table: string, was: seq<ColumnDef>, keep: set<string>)
    ensures DeleteActions(table, was, keep) == [] <==> ColNames(was) <= keep
  {
    if was != [] {
      DeletesEmpty(table, was[1..], keep);
      ColNamesCons(was);
    }
  }

  lemma {:induction false} AddsEmpty(table: string, now: seq<ColumnDef>, have: set<string>)
    ensures AddActions(table, now, have) == [] <==> ColNames(now) <= have
  {
    if now != [] {
      AddsEmpty(table, now[1..], have);
      ColNamesCons(now);
    }
  }

  lemma {:induction false} ModifiesEmpty(table: string, now: seq<ColumnDef>, was: map<string, ColumnDef>)
    ensures ModifyActions(table, now, was) == [] <==>
            forall j :: 0 <= j < |now| && now[j].name in was ==> SameProperties(was[now[j].name], now[j])
  {
    if now != [] {
      ModifiesEmpty(table, now[1..], was);
      assert forall j :: 0 < j < |now| ==> now[1..][j - 1] == now[j];
    }
  }

  /** Equal views do not make the diff empty: a number and its numeral as SQL text render alike. */
  lemma EqualViewsNonEmptyDiff()
    ensures exists was, now ::
              DistinctNames(was) && DistinctNames(now) && ColsOf(was) == ColsOf(now) && DiffColumns("t", was, now) != []
  {
    var c := ColumnDef("n", Simple("integer"), true, Some(IntegerDefault(1)), None, UNMARKED, None, true);
    var d := c.(default := Some(StringDefault("1")));
    assert ToSql(IntegerDefault(1)) == "1";
    ColsOfAt([c], 0);
    ColsOfAt([d], 0);
    assert ColNames([c]) == {"n"} && ColNames([d]) == {"n"} by {
      assert [c][0].name == "n" && [d][0].name == "n";
    }
    assert ColsOf([c]) == ColsOf([d]);
    DiffColumnsEmpty("t", [c], [d]);
    assert !SameProperties([c][0], [d][0]);
    assert DistinctNames([c]) && DistinctNames([d]);
  }

  // ---------------------------------------------------------------- constraint diff correctness

  function ReplayLocal(t: TableDef, actions: seq<Action>): Result<TableDef, PlannerError>
    requires forall i :: 0 <= i < |actions| ==> IsTableLocal(actions[i])
    decreases |actions|
  {
    if actions == [] then Ok(t) else
    match ApplyToTable(t, actions[0])
    case Err(e) => Err(e)
    case Ok(t') => ReplayLocal(t', actions[1..])
  }

  lemma {:induction false} ReplayLocalConcat(t: TableDef, xs: seq<Action>, ys: seq<Action>)
    requires forall i :: 0 <= i < |xs| ==> IsTableLocal(xs[i])
    requires forall i :: 0 <= i < |ys| ==> IsTableLocal(ys[i])
    ensures ReplayLocal(t, xs + ys) ==
            match ReplayLocal(t, xs) case Err(e) => Err(e) case Ok(t') => ReplayLocal(t', ys)
    decreases |xs|
  {
    if xs == [] {
      assert xs + ys == ys;
    } else {
      assert (xs + ys)[1..] == xs[1..] + ys;
      var r := ApplyToTable(t, xs[0]);
      if r.Ok? {
        ReplayLocalConcat(r.value, xs[1..], ys);
      }
    }
  }

  function Members(cs: seq<TableConstraint>): set<TableConstraint> {
    set c | c in cs
  }

  lemma {:induction false} WithoutConstraintMembers(cs: seq<TableConstraint>, c: TableConstraint)
    ensures Members(WithoutConstraint(cs, c)) == Members(cs) - {c}
  {
    if cs != [] {
      WithoutConstraintMembers(cs[1..], c);
      assert Members(cs) == {cs[0]} + Members(cs[1..]);
      var rest := WithoutConstraint(cs[1..], c);
      assert Members([cs[0]] + rest) == {cs[0]} + Members(rest);
    }
  }

  lemma SameButInlineTrans(a: seq<ColumnDef>, b: seq<ColumnDef>, c: seq<ColumnDef>)
    requires SameButInline(a, b) && SameButInline(b, c)
    ensures SameButInline(a, c)
  {
    forall i | 0 <= i < |a| ensures a[i].(marks := c[i].marks, reference := c[i].reference) == c[i] {
      assert a[i].(marks := b[i].marks, reference := b[i].reference) == b[i];
      assert b[i].(marks := c[i].marks, reference := c[i].reference) == c[i];
    }
  }

  function Removed(t: TableDef, c: TableConstraint): TableDef {
    t.(columns := ClearInline(t.name, t.columns, c), constraints := WithoutConstraint(t.constraints, c))
  }

  lemma RemoveStep(t: TableDef, c: TableConstraint, rest: seq<Action>)
    requires forall i :: 0 <= i < |rest| ==> IsTableLocal(rest[i])
    ensures var acts := [RemoveConstraint(t.name, c)] + rest;
      (forall i :: 0 <= i < |acts| ==> IsTableLocal(acts[i]))
        && ReplayLocal(t, acts) == ReplayLocal(Removed(t, c), rest)
  {
    var a := RemoveConstraint(t.name, c);
    assert ApplyToTable(t, a) == Ok(Removed(t, c));
    ReplayLocalStep(t, a, Removed(t, c), rest);
  }

  lemma ReplayLocalStep(t: TableDef, a: Action, u: TableDef, rest: seq<Action>)
    requires IsTableLocal(a) && (forall i :: 0 <= i < |rest| ==> IsTableLocal(rest[i])) && ApplyToTable(t, a) == Ok(u)
    ensures (forall i :: 0 <= i < |rest| + 1 ==> IsTableLocal(([a] + rest)[i]))
    ensures ReplayLocal(t, [a] + rest) == ReplayLocal(u, rest)
  {
    assert ([a] + rest)[1..] == rest;
  }

  lemma {:induction false} RemovesReplay(t: TableDef, was: seq<TableConstraint>, now: seq<TableConstraint>)
    returns (r: TableDef)
    ensures var acts := RemoveActions(t.name, was, now);
      LocalTo(t.name, acts) && ReplayLocal(t, acts) == Ok(r)
    ensures SameButInline(r.columns, t.columns) && r.name == t.name
    ensures Members(r.constraints) == Members(t.constraints) - (Members(was) - Members(now))
    decreases |was|
  {
    if was == [] {
      r := t;
    } else {
      assert Members(was) == {was[0]} + Members(was[1..]);
      if was[0] in now {
        r := RemovesReplay(t, was[1..], now);
      } else {
        var t1 := Removed(t, was[0]);
        WithoutConstraintMembers(t.constraints, was[0]);
        r := RemovesReplay(t1, was[1..], now);
        RemoveStep(t, was[0], RemoveActions(t.name, was[1..], now));
        SameButInlineTrans(r.columns, t1.columns, t.columns);
      }
    }
  }

  lemma {:induction false} AddsConstraintsReplay(t: TableDef, now: seq<TableConstraint>, was: seq<TableConstraint>)
    returns (r: TableDef)
    ensures var acts := AddConstraintActions(t.name, now, was);
      LocalTo(t.name, acts) && ReplayLocal(t, acts) == Ok(r)
    ensures r.columns == t.columns && r.name == t.name
    ensures Members(r.constraints) == Members(t.constraints) + (Members(now) - Members(was))
    decreases |now|
  {
    if now == [] {
      r := t;
    } else {
      assert Members(now) == {now[0]} + Members(now[1..]);
      if now[0] in was {
        r := AddsConstraintsReplay(t, now[1..], was);
      } else {
        var t1 := if now[0] in t.constraints then t else t.(constraints := t.constraints + [now[0]]);
        assert Members(t1.constraints) == Members(t.constraints) + {now[0]};
        r := AddsConstraintsReplay(t1, now[1..], was);
        assert AddConstraintActions(t.name, now, was)[1..] == AddConstraintActions(t.name, now[1..], was);
      }
    }
  }

  /** Replayed on the table it was computed from, the constraint diff never fails, changes nothing of
      the columns but inline fields, and ends with exactly the new constraint set. */
  lemma DiffConstraintsCorrect(t: TableDef, now: seq<TableConstraint>) returns (r: TableDef)
    ensures var acts := DiffConstraints(t.name, t.constraints, now);
      LocalTo(t.name, acts) && ReplayLocal(t, acts) == Ok(r)
    ensures SameButInline(r.columns, t.columns) && r.name == t.name
    ensures Members(r.constraints) == Members(now)
    ensures DiffConstraints(t.name, t.constraints, now) == [] <==> Members(t.constraints) == Members(now)
  {
    var was := t.constraints;
    ConstraintActionsLocal(t.name, was, now);
    var mid := RemovesReplay(t, was, now);
    r := AddsConstraintsReplay(mid, now, was);
    ReplayLocalConcat(t, RemoveActions(t.name, was, now), AddConstraintActions(t.name, now, was));
    RemovesEmpty(t.name, was, now);
    AddConstraintsEmpty(t.name, now, was);
  }

  lemma {:induction false} RemovesEmpty(table: string, was: seq<TableConstraint>, now: seq<TableConstraint>)
    ensures RemoveActions(table, was, now) == [] <==> Members(was) <= Members(now)
  {
    if was != [] {
      RemovesEmpty(table, was[1..], now);
      assert Members(was) == {was[0]} + Members(was[1..]);
    }
  }

  lemma {:induction false} AddConstraintsEmpty(table: string, now: seq<TableConstraint>, was: seq<TableConstraint>)
    ensures AddConstraintActions(table, now, was) == [] <==> Members(now) <= Members(was)
  {
    if now != [] {
      AddConstraintsEmpty(table, now[1..], was);
      assert Members(now) == {now[0]} + Members(now[1..]);
    }
  }
}
