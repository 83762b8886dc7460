/** A rewritten plan means what the original meant: replaying it ends with the same column view. */
module RenameMeaning {
  import opened Common
  import opened Schema
  import opened ColumnView
  import opened TableDiff
  import opened DropResolution

  // ---------------------------------------------------------------- frames

  ghost predicate AgreeOutside<V>(m: map<string, V>, w: map<string, V>, X: set<string>) {
    forall k :: k !in X ==> (k in m <==> k in w) && (k in m && k in w ==> m[k] == w[k])
  }

  ghost predicate SameOn<V>(m: map<string, V>, w: map<string, V>, X: set<string>) {
    forall k :: k in X ==> (k in m <==> k in w) && (k in m && k in w ==> m[k] == w[k])
  }

  lemma AgreeAndSame<V>(m: map<string, V>, w: map<string, V>, X: set<string>)
    requires AgreeOutside(m, w, X) && SameOn(m, w, X)
    ensures m == w
  {
    assert forall k :: k in X || k !in X ==> (k in m <==> k in w);
  }

  predicate NamesTable(a: Action, t: string) {
    if a.RenameTable? then a.from == t || a.to == t
    else !a.RawSql? && !a.DataMigration? && a.table == t
  }

  predicate Avoids(actions: seq<Action>, X: set<string>) {
    forall i, t :: 0 <= i < |actions| && t in X ==> !NamesTable(actions[i], t)
  }

  /** An action that names no table of X does the same on two views that agree outside X, and
      leaves X alone in both. */
  lemma TableFrame(v: View, w: View, a: Action, X: set<string>)
    requires AgreeOutside(v, w, X)
    requires forall t :: t in X ==> !NamesTable(a, t)
    requires ViewStep(v, a).Some?
    ensures ViewStep(w, a).Some?
    ensures AgreeOutside(ViewStep(v, a).value, ViewStep(w, a).value, X)
    ensures SameOn(v, ViewStep(v, a).value, X) && SameOn(w, ViewStep(w, a).value, X)
  {
    if a.RenameTable? {
      assert NamesTable(a, a.from) && NamesTable(a, a.to);
      assert a.from !in X && a.to !in X;
    } else if !a.RawSql? && !a.DataMigration? {
      assert NamesTable(a, a.table);
      assert a.table !in X;
    }
  }

  lemma {:induction false} TableFrameReplay(v: View, w: View, actions: seq<Action>, X: set<string>)
    requires AgreeOutside(v, w, X) && Avoids(actions, X)
    requires ViewReplay(v, actions).Some?
    ensures ViewReplay(w, actions).Some?
    ensures AgreeOutside(ViewReplay(v, actions).value, ViewReplay(w, actions).value, X)
    ensures SameOn(v, ViewReplay(v, actions).value, X) && SameOn(w, ViewReplay(w, actions).value, X)
    decreases |actions|
  {
    if actions != [] {
      assert Avoids(actions[1..], X) by {
        assert forall i :: 0 <= i < |actions| - 1 ==> actions[1..][i] == actions[i + 1];
      }
      TableFrame(v, w, actions[0], X);
      TableFrameReplay(ViewStep(v, actions[0]).value, ViewStep(w, actions[0]).value, actions[1..], X);
    }
  }

  // ---------------------------------------------------------------- cutting a plan at the matched pair

  /** The views before, behind the first, before the second and behind both of two actions. */
  datatype ViewCut = ViewCut(vA: View, v1: View, v2: View, v3: View)

  ghost predicate CutsViews(v: View, actions: seq<Action>, lo: nat, hi: nat, c: ViewCut)
    requires lo < hi < |actions|
  {
    && ViewReplay(v, actions[..lo]) == Some(c.vA)
    && ViewStep(c.vA, actions[lo]) == Some(c.v1)
    && ViewReplay(c.v1, actions[lo + 1..hi]) == Some(c.v2)
    && ViewStep(c.v2, actions[hi]) == Some(c.v3)
    && ViewReplay(c.v3, actions[hi + 1..]) == ViewReplay(v, actions)
  }

  lemma CutReplay(v: View, actions: seq<Action>, lo: nat, hi: nat) returns (c: ViewCut)
    requires lo < hi < |actions| && ViewReplay(v, actions).Some?
    ensures CutsViews(v, actions, lo, hi, c)
  {
    var A, B, C := actions[..lo], actions[lo + 1..hi], actions[hi + 1..];
    assert actions == A + ([actions[lo]] + (B + ([actions[hi]] + C)));
    ViewReplayConcat(v, A, [actions[lo]] + (B + ([actions[hi]] + C)));
    var vA := ViewReplay(v, A).value;
    assert ([actions[lo]] + (B + ([actions[hi]] + C)))[1..] == B + ([actions[hi]] + C);
    var v1 := ViewStep(vA, actions[lo]).value;
    ViewReplayConcat(v1, B, [actions[hi]] + C);
    var v2 := ViewReplay(v1, B).value;
    assert ([actions[hi]] + C)[1..] == C;
    c := ViewCut(vA, v1, v2, ViewStep(v2, actions[hi]).value);
  }

  lemma SpliceReplay(v: View, actions: seq<Action>, lo: nat, hi: nat, middle: seq<Action>, vA: View, w1: View, w2: View)
    requires lo < hi < |actions|
    requires ViewReplay(v, actions[..lo]) == Some(vA)
    requires ViewReplay(vA, middle) == Some(w1)
    requires ViewReplay(w1, actions[lo + 1..hi]) == Some(w2)
    ensures ViewReplay(v, Splice(actions, lo, hi, middle)) == ViewReplay(w2, actions[hi + 1..])
  {
    var A, B, C := actions[..lo], actions[lo + 1..hi], actions[hi + 1..];
    assert Splice(actions, lo, hi, middle) == A + (middle + (B + C));
    ViewReplayConcat(v, A, middle + (B + C));
    ViewReplayConcat(vA, middle, B + C);
    ViewReplayConcat(w1, B, C);
  }

  // ---------------------------------------------------------------- table rename

  /** The matched pair is the only mention of either table up to the later of the two. */
  ghost predicate TablePairIsolated(actions: seq<Action>, from: string, to: string) {
    var d, c := Position(actions, DropOf(TableTarget(from))), Position(actions, AddOf(TableTarget(from), to));
    && d < |actions| && c < |actions|
    && forall k :: 0 <= k < |actions| && (k < d || k < c) && k != d && k != c
         ==> !NamesTable(actions[k], from) && !NamesTable(actions[k], to)
  }

  lemma DiffReplay(v: View, was: TableDef, to: string, cols: seq<ColumnDef>, cs: seq<TableConstraint>) returns (m: Cols)
    requires to in v && v[to] == ColsOf(was.columns)
    requires DistinctNames(was.columns) && DistinctNames(cols) && AllInlineOk(cols)
    ensures ViewReplay(v, DiffColumns(to, was.columns, cols) + DiffConstraints(to, was.constraints, cs)) ==
      Some(v[to := m])
    ensures m == ColsOf(cols) <==> NoZeroClash(was.columns, cols)
  {
    var diff, cons := DiffColumns(to, was.columns, cols), DiffConstraints(to, was.constraints, cs);
    m := DiffColumnsCorrect(to, was.columns, cols);
    LocalReplay(v, to, diff);
    DiffConstraintsInvisible(to, was.constraints, cs, m);
    LocalReplay(v[to := m], to, cons);
    SetTwice(v, to, m, m);
    ViewReplayConcat(v, diff, cons);
  }

  lemma RenameThen(vA: View, from: string, to: string, rest: seq<Action>)
    requires from in vA && to !in vA
    ensures ViewReplay(vA, [RenameTable(from, to)] + rest) == ViewReplay((vA - {from})[to := vA[from]], rest)
  {
    assert ([RenameTable(from, to)] + rest)[1..] == rest;
  }

  /** Rename plus diff, replayed where the earlier of the pair stood. */
  lemma TableMiddle(vA: View, baseline: seq<TableDef>, from: string, to: string, created: Action) returns (m: Cols)
    requires Matches(AddOf(TableTarget(from), to), created)
    requires Wf(baseline) && from in ViewSchema(baseline)
    requires from in vA && vA[from] == ViewSchema(baseline)[from] && to !in vA
    requires DistinctNames(created.columns) && AllInlineOk(created.columns)
    ensures BaselineTable(baseline, from).Some?
    ensures ViewReplay(vA, Replacement(baseline, TableTarget(from), to, created)) == Some((vA - {from})[to := m])
    ensures m == ColsOf(created.columns) <==> NoZeroClash(BaselineTable(baseline, from).value.columns, created.columns)
  {
    var was := baseline[FindTable(baseline, from)];
    ViewAt(baseline, FindTable(baseline, from));
    var v1 := (vA - {from})[to := vA[from]];
    m := DiffReplay(v1, was, to, created.columns, created.constraints);
    var rest := DiffColumns(to, was.columns, created.columns)
      + DiffConstraints(to, was.constraints, created.constraints);
    RenameThen(vA, from, to, rest);
    SetTwice(vA - {from}, to, vA[from], m);
  }

  ghost predicate IsTablePair(x: Action, y: Action, from: string, created: Action) {
    && created.CreateTable?
    && ((x == DeleteTable(from) && y == created) || (x == created && y == DeleteTable(from)))
  }

  /** The pair stands at `lo` and `hi`, and nothing up to `hi` names one of its tables. */
  ghost predicate TablePairAt(actions: seq<Action>, lo: nat, hi: nat, from: string, created: Action) {
    && lo < hi < |actions| && IsTablePair(actions[lo], actions[hi], from, created) && from != created.table
    && Avoids(actions[..lo], {from, created.table}) && Avoids(actions[lo + 1..hi], {from, created.table})
  }

  /** The views around the pair differ in its tables alone. */
  ghost predicate AroundTable(v: View, c: ViewCut, from: string, created: Action)
    requires created.CreateTable?
  {
    && from in v && from in c.vA && c.vA[from] == v[from] && created.table !in c.vA
    && AgreeOutside(c.v1, c.vA, {from, created.table}) && AgreeOutside(c.v3, c.v2, {from, created.table})
    && from !in c.v3 && created.table in c.v3 && c.v3[created.table] == ColsOf(created.columns)
    && DistinctNames(created.columns) && AllInlineOk(created.columns)
  }

  lemma TableCut(v: View, actions: seq<Action>, lo: nat, hi: nat, from: string, created: Action) returns (c: ViewCut)
    requires TablePairAt(actions, lo, hi, from, created) && ViewReplay(v, actions).Some?
    ensures CutsViews(v, actions, lo, hi, c) && AroundTable(v, c, from, created)
  {
    var X := {from, created.table};
    c := CutReplay(v, actions, lo, hi);
    TableFrameReplay(v, v, actions[..lo], X);
    TableFrameReplay(c.v1, c.v1, actions[lo + 1..hi], X);
    assert from in X && created.table in X;
  }

  /** At the later of the pair the two replays differ at most in the new table's columns. */
  lemma TableJoin(v: View, c: ViewCut, middle: seq<Action>, from: string, created: Action, m: Cols)
    returns (w2: View)
    requires created.CreateTable? && from != created.table && AroundTable(v, c, from, created)
    requires Avoids(middle, {from, created.table}) && ViewReplay(c.v1, middle) == Some(c.v2)
    ensures ViewReplay((c.vA - {from})[created.table := m], middle) == Some(w2)
    ensures AgreeOutside(c.v3, w2, {created.table}) && created.table in w2
    ensures c.v3 == w2 <==> c.v3[created.table] == m
  {
    var to, v3, w1 := created.table, c.v3, (c.vA - {from})[created.table := m];
    var X := {from, to};
    assert from in X && to in X;
    assert AgreeOutside(c.v1, w1, X);
    TableFrameReplay(c.v1, w1, middle, X);
    w2 := ViewReplay(w1, middle).value;
    assert AgreeOutside(v3, w2, X) && SameOn(w1, w2, X);
    assert from !in w2 && to in w2 && w2[to] == m;
    if v3[to] == m {
      AgreeAndSame(v3, w2, X);
    }
  }

  lemma TableRenameCore(baseline: seq<TableDef>, actions: seq<Action>, lo: nat, hi: nat, from: string, created: Action)
    returns (v3: View, w2: View)
    requires Wf(baseline) && TablePairAt(actions, lo, hi, from, created)
    requires ViewReplay(ViewSchema(baseline), actions).Some?
    ensures ViewReplay(v3, actions[hi + 1..]) == ViewReplay(ViewSchema(baseline), actions)
    ensures ViewReplay(w2, actions[hi + 1..]) ==
            ViewReplay(ViewSchema(baseline),
              Splice(actions, lo, hi, Replacement(baseline, TableTarget(from), created.table, created)))
    ensures BaselineTable(baseline, from).Some?
    ensures AgreeOutside(v3, w2, {created.table}) && created.table in v3 && created.table in w2
    ensures v3 == w2 <==> NoZeroClash(BaselineTable(baseline, from).value.columns, created.columns)
  {
    var v := ViewSchema(baseline);
    var c := TableCut(v, actions, lo, hi, from, created);
    var m := TableMiddle(c.vA, baseline, from, created.table, created);
    w2 := TableJoin(v, c, actions[lo + 1..hi], from, created, m);
    v3 := c.v3;
    SpliceReplay(v, actions, lo, hi, Replacement(baseline, TableTarget(from), created.table, created), c.vA,
      (c.vA - {from})[created.table := m], w2);
  }

  /** The two positions of an isolated pair, in plan order. */
  lemma TablePairCut(actions: seq<Action>, baseline: seq<TableDef>, from: string, to: string)
    returns (lo: nat, hi: nat, created: Action)
    requires TablePairIsolated(actions, from, to) && from != to
    ensures created == actions[Position(actions, AddOf(TableTarget(from), to))]
    ensures Matches(AddOf(TableTarget(from), to), created) && TablePairAt(actions, lo, hi, from, created)
    ensures Rewrite(actions, baseline, TableTarget(from), to) ==
      Ok(Splice(actions, lo, hi, Replacement(baseline, TableTarget(from), to, created)))
    ensures Places(lo, hi, Position(actions, DropOf(TableTarget(from))),
      Position(actions, AddOf(TableTarget(from), to)))
  {
    var d, c := Position(actions, DropOf(TableTarget(from))), Position(actions, AddOf(TableTarget(from), to));
    lo, hi, created := if d < c then d else c, if d < c then c else d, actions[c];
    var B, X := actions[lo + 1..hi], {from, to};
    forall i, t | 0 <= i < |B| && t in X ensures !NamesTable(B[i], t) {
      assert B[i] == actions[lo + 1 + i];
    }
  }

  /** The outcome of a rewritten plan: the same column view, or a stop at a `ReplaceConstraint` of
      the original plan whose constraint is no longer there. */
  ghost predicate SameMeaning(baseline: seq<TableDef>, actions: seq<Action>, rewritten: seq<Action>) {
    var before, after := Replay(baseline, actions), Replay(baseline, rewritten);
    && before.Ok?
    && (after.Ok? ==> ViewSchema(after.value) == ViewSchema(before.value))
    && (after.Err? ==> after.error.ReplaceTargetMissing? && !NoReplace(actions))
  }

  lemma RewriteNoReplace(actions: seq<Action>, baseline: seq<TableDef>, source: DropTarget, target: string)
    requires Rewrite(actions, baseline, source, target).Ok? && NoReplace(actions)
    ensures NoReplace(Rewrite(actions, baseline, source, target).value)
  {
    var d, a := Position(actions, DropOf(source)), Position(actions, AddOf(source, target));
    SpliceNoReplace(actions, if d < a then d else a, if d < a then a else d,
      Replacement(baseline, source, target, actions[a]));
  }

  lemma SpliceNoReplace(actions: seq<Action>, lo: nat, hi: nat, middle: seq<Action>)
    requires lo < hi < |actions| && NoReplace(actions) && NoReplace(middle)
    ensures NoReplace(Splice(actions, lo, hi, middle))
  {
    assert NoReplace(actions[..lo] + middle) && NoReplace(actions[lo + 1..hi]) && NoReplace(actions[hi + 1..]);
  }

  lemma SameViewSameMeaning(baseline: seq<TableDef>, actions: seq<Action>, source: DropTarget, target: string)
    requires CleanReplay(baseline, actions)
    requires Rewrite(actions, baseline, source, target).Ok?
    requires ViewReplay(ViewSchema(baseline), actions) ==
             ViewReplay(ViewSchema(baseline), Rewrite(actions, baseline, source, target).value)
    ensures SameMeaning(baseline, actions, Rewrite(actions, baseline, source, target).value)
  {
    CleanReplayView(baseline, actions);
    ViewReplayRefined(baseline, Rewrite(actions, baseline, source, target).value);
    if NoReplace(actions) {
      RewriteNoReplace(actions, baseline, source, target);
    }
  }

  /** Table rename preserves meaning, whatever unrelated actions surround the pair. */
  lemma TableRenamePreservesMeaning(baseline: seq<TableDef>, actions: seq<Action>, from: string, to: string)
    requires CleanReplay(baseline, actions)
    requires TablePairIsolated(actions, from, to) && from != to
    requires
      var was := BaselineTable(baseline, from);
      var created := actions[Position(actions, AddOf(TableTarget(from), to))];
      was.Some? ==> NoZeroClash(was.value.columns, created.columns)
    ensures Rewrite(actions, baseline, TableTarget(from), to).Ok?
    ensures SameMeaning(baseline, actions, Rewrite(actions, baseline, TableTarget(from), to).value)
  {
    CleanReplayView(baseline, actions);
    var lo, hi, created := TablePairCut(actions, baseline, from, to);
    var v3, w2 := TableRenameCore(baseline, actions, lo, hi, from, created);
    SameViewSameMeaning(baseline, actions, TableTarget(from), to);
  }

  lemma DifferenceStays(v: View, w: View, actions: seq<Action>, t: string)
    requires AgreeOutside(v, w, {t}) && t in v && t in w && v != w
    requires Avoids(actions, {t}) && ViewReplay(v, actions).Some?
    ensures ViewReplay(v, actions) != ViewReplay(w, actions)
  {
    if v[t] == w[t] {
      AgreeAndSame(v, w, {t});
    }
    TableFrameReplay(v, w, actions, {t});
    assert t in {t};
  }

  /** When nothing behind the pair names the new table, the view is kept exactly when no float zero
      changes sign. */
  lemma TableRenameExact(baseline: seq<TableDef>, actions: seq<Action>, from: string, to: string)
    requires CleanReplay(baseline, actions)
    requires TablePairIsolated(actions, from, to) && from != to
    requires
      var d, c := Position(actions, DropOf(TableTarget(from))), Position(actions, AddOf(TableTarget(from), to));
      forall k :: d < k < |actions| && c < k ==> !NamesTable(actions[k], to)
    ensures Rewrite(actions, baseline, TableTarget(from), to).Ok?
    ensures BaselineTable(baseline, from).Some?
    ensures
      var rewritten := Rewrite(actions, baseline, TableTarget(from), to).value;
      ViewReplay(ViewSchema(baseline), rewritten) == ViewReplay(ViewSchema(baseline), actions) <==>
      NoZeroClash(BaselineTable(baseline, from).value.columns,
        actions[Position(actions, AddOf(TableTarget(from), to))].columns)
  {
    CleanReplayView(baseline, actions);
    var lo, hi, created := TablePairCut(actions, baseline, from, to);
    var v3, w2 := TableRenameCore(baseline, actions, lo, hi, from, created);
    if v3 != w2 {
      TailAvoids(actions, lo, hi, from, to);
      DifferenceStays(v3, w2, actions[hi + 1..], to);
    }
  }

  lemma TailAvoids(actions: seq<Action>, lo: nat, hi: nat, from: string, to: string)
    requires lo < hi < |actions|
    requires Places(lo, hi, Position(actions, DropOf(TableTarget(from))),
      Position(actions, AddOf(TableTarget(from), to)))
    requires
      var d, c := Position(actions, DropOf(TableTarget(from))), Position(actions, AddOf(TableTarget(from), to));
      forall k :: d < k < |actions| && c < k ==> !NamesTable(actions[k], to)
    ensures Avoids(actions[hi + 1..], {to})
  {
    var d, c, C := Position(actions, DropOf(TableTarget(from))), Position(actions, AddOf(TableTarget(from), to)),
      actions[hi + 1..];
    forall i | 0 <= i < |C| ensures !NamesTable(C[i], to) {
      assert C[i] == actions[hi + 1 + i];
    }
  }

  /** Dropping and recreating one table cannot become a rename: `rename_table` refuses a taken name. */
  lemma RenameToItselfFails(t: TableDef)
    ensures
      var actions := [DeleteTable(t.name), CreateTable(t.name, t.columns, t.constraints)];
      && Rewrite(actions, [t], TableTarget(t.name), t.name).Ok?
      && Replay([t], Rewrite(actions, [t], TableTarget(t.name), t.name).value) == Err(TableExists(t.name))
  {
    var actions := [DeleteTable(t.name), CreateTable(t.name, t.columns, t.constraints)];
    assert Matches(DropOf(TableTarget(t.name)), actions[0]);
    assert Matches(AddOf(TableTarget(t.name), t.name), actions[1]);
    var r := Rewrite(actions, [t], TableTarget(t.name), t.name).value;
    assert r[0] == RenameTable(t.name, t.name);
  }

  // ---------------------------------------------------------------- column rename

  predicate NamesColumn(a: Action, c: string)
    requires IsTableLocal(a)
  {
    if IsColumnEdit(a) || a.DeleteColumn? then a.column == c
    else if a.AddColumn? then a.added.name == c
    else a.RenameColumn? && (a.from == c || a.to == c)
  }

  /** The action could affect column `c` of `t`, or creates, drops or renames `t`. */
  predicate Touches(a: Action, t: string, c: string) {
    NamesTable(a, t) && (IsTableLocal(a) ==> NamesColumn(a, c))
  }

  predicate AvoidsColumns(actions: seq<Action>, t: string, X: set<string>) {
    forall i, c :: 0 <= i < |actions| && c in X ==> !Touches(actions[i], t, c)
  }

  lemma ColumnFrame(m: Cols, w: Cols, a: Action, X: set<string>)
    requires IsTableLocal(a)
    requires AgreeOutside(m, w, X)
    requires forall c :: c in X ==> !NamesColumn(a, c)
    requires ColStep(m, a).Some?
    ensures ColStep(w, a).Some?
    ensures AgreeOutside(ColStep(m, a).value, ColStep(w, a).value, X)
    ensures SameOn(m, ColStep(m, a).value, X) && SameOn(w, ColStep(w, a).value, X)
  {
    if IsColumnEdit(a) || a.DeleteColumn? {
      assert NamesColumn(a, a.column);
      assert a.column !in X;
    } else if a.AddColumn? {
      assert NamesColumn(a, a.added.name);
      assert a.added.name !in X;
    } else if a.RenameColumn? {
      assert NamesColumn(a, a.from) && NamesColumn(a, a.to);
      assert a.from !in X && a.to !in X;
    }
  }

  /** The views agree except perhaps in the columns X of table `t`. */
  ghost predicate AgreeExcept(v: View, w: View, t: string, X: set<string>) {
    t in v && t in w && AgreeOutside(v, w, {t}) && AgreeOutside(v[t], w[t], X)
  }

  lemma ColumnFrameStep(v: View, w: View, a: Action, t: string, X: set<string>)
    requires AgreeExcept(v, w, t, X)
    requires X != {} && forall c :: c in X ==> !Touches(a, t, c)
    requires ViewStep(v, a).Some?
    ensures ViewStep(w, a).Some?
    ensures AgreeExcept(ViewStep(v, a).value, ViewStep(w, a).value, t, X)
    ensures SameOn(v[t], ViewStep(v, a).value[t], X) && SameOn(w[t], ViewStep(w, a).value[t], X)
  {
    if NamesTable(a, t) {
      var c :| c in X;
      assert !Touches(a, t, c) && IsTableLocal(a);
      forall c | c in X ensures !NamesColumn(a, c) {
        assert !Touches(a, t, c);
      }
      ColumnFrame(v[t], w[t], a, X);
    } else {
      TableFrame(v, w, a, {t});
      assert t in {t};
    }
  }

  lemma {:induction false} ColumnFrameReplay(v: View, w: View, actions: seq<Action>, t: string, X: set<string>)
    requires AgreeExcept(v, w, t, X)
    requires X != {} && AvoidsColumns(actions, t, X)
    requires ViewReplay(v, actions).Some?
    ensures ViewReplay(w, actions).Some?
    ensures AgreeExcept(ViewReplay(v, actions).value, ViewReplay(w, actions).value, t, X)
    ensures SameOn(v[t], ViewReplay(v, actions).value[t], X) && SameOn(w[t], ViewReplay(w, actions).value[t], X)
    decreases |actions|
  {
    if actions != [] {
      assert AvoidsColumns(actions[1..], t, X) by {
        assert forall i :: 0 <= i < |actions| - 1 ==> actions[1..][i] == actions[i + 1];
      }
      ColumnFrameStep(v, w, actions[0], t, X);
      ColumnFrameReplay(ViewStep(v, actions[0]).value, ViewStep(w, actions[0]).value, actions[1..], t, X);
    }
  }

  /** The pair is the only thing that touches either column up to the later of the two. Adding a
      column and dropping it again is not a rename. */
  ghost predicate ColumnPairIsolated(actions: seq<Action>, t: string, from: string, to: string) {
    var d, c := Position(actions, DropOf(ColumnTarget(t, from))), Position(actions, AddOf(ColumnTarget(t, from), to));
    && d < |actions| && c < |actions|
    && (c < d ==> from != to)
    && forall k :: 0 <= k < |actions| && (k < d || k < c) && k != d && k != c
         ==> !Touches(actions[k], t, from) && !Touches(actions[k], t, to)
  }

  lemma RenameColumnThen(vA: View, t: string, from: string, to: string, rest: seq<Action>)
    requires t in vA && from in vA[t] && (to == from || to !in vA[t])
    ensures ViewReplay(vA, [RenameColumn(t, from, to)] + rest) ==
      ViewReplay(vA[t := (vA[t] - {from})[to := vA[t][from]]], rest)
  {
    assert ([RenameColumn(t, from, to)] + rest)[1..] == rest;
  }

  lemma SetTwice<K, V>(m: map<K, V>, k: K, v: V, w: V)
    ensures m[k := v][k := w] == m[k := w]
  {
  }

  lemma ColumnMiddle(vA: View, baseline: seq<TableDef>, t: string, from: string, added: Action) returns (was: ColumnDef)
    requires added.AddColumn? && added.table == t
    requires Wf(baseline) && t in ViewSchema(baseline) && from in ViewSchema(baseline)[t]
    requires t in vA && from in vA[t] && vA[t][from] == ViewSchema(baseline)[t][from]
    requires added.added.name == from || added.added.name !in vA[t]
    ensures BaselineColumn(baseline, t, from) == Some(was)
    ensures ViewReplay(vA, Replacement(baseline, ColumnTarget(t, from), added.added.name, added)) ==
            Some(vA[t := (vA[t] - {from})[added.added.name := Merged(was, added.added)]])
  {
    var to := added.added.name;
    ViewAt(baseline, FindTable(baseline, t));
    var cols := baseline[FindTable(baseline, t)].columns;
    was := cols[FindColumn(cols, from)];
    var m1 := (vA[t] - {from})[to := vA[t][from]];
    var m2 := (vA[t] - {from})[to := Merged(was, added.added)];
    var edits := EditActions(t, was, added.added);
    RenameColumnThen(vA, t, from, to, edits);
    EditActionsReplay(t, was, added.added, m1);
    LocalReplay(vA[t := m1], t, edits);
    SetTwice(vA[t] - {from}, to, vA[t][from], Merged(was, added.added));
    SetTwice(vA, t, m1, m2);
  }

  ghost predicate IsColumnPair(x: Action, y: Action, t: string, from: string, added: Action) {
    && added.AddColumn? && added.table == t
    && ((x == DeleteColumn(t, from) && y == added) || (x == added && y == DeleteColumn(t, from)
      && from != added.added.name))
  }

  /** The pair stands at `lo` and `hi`, and nothing up to `hi` touches one of its columns. */
  ghost predicate ColumnPairAt(actions: seq<Action>, lo: nat, hi: nat, t: string, from: string, added: Action) {
    && lo < hi < |actions| && IsColumnPair(actions[lo], actions[hi], t, from, added)
    && AvoidsColumns(actions[..lo], t, {from, added.added.name})
    && AvoidsColumns(actions[lo + 1..hi], t, {from, added.added.name})
  }

  /** The views around the pair differ in its columns alone. */
  ghost predicate AroundColumn(v: View, c: ViewCut, t: string, from: string, added: Action)
    requires added.AddColumn?
  {
    var to := added.added.name;
    && t in v && t in c.vA && from in v[t] && from in c.vA[t] && c.vA[t][from] == v[t][from]
    && (to == from || to !in c.vA[t])
    && AgreeExcept(c.v1, c.vA, t, {from, to}) && AgreeExcept(c.v3, c.v2, t, {from, to})
    && (from != to ==> from !in c.v3[t])
    && to in c.v3[t] && c.v3[t][to] == ViewOf(added.added)
  }

  lemma ColumnCut(v: View, actions: seq<Action>, lo: nat, hi: nat, t: string, from: string, added: Action)
    returns (c: ViewCut)
    requires ColumnPairAt(actions, lo, hi, t, from, added) && ViewReplay(v, actions).Some?
    ensures CutsViews(v, actions, lo, hi, c) && AroundColumn(v, c, t, from, added)
  {
    var X := {from, added.added.name};
    c := CutReplay(v, actions, lo, hi);
    TablePersists(v, actions[..lo], t, X);
    ColumnFrameReplay(v, v, actions[..lo], t, X);
    ColumnFrameReplay(c.v1, c.v1, actions[lo + 1..hi], t, X);
    assert from in X && added.added.name in X;
  }

  lemma ColumnJoin(v: View, c: ViewCut, middle: seq<Action>, t: string, from: string, added: Action, merged: ColView)
    returns (w2: View)
    requires added.AddColumn? && AroundColumn(v, c, t, from, added)
    requires AvoidsColumns(middle, t, {from, added.added.name}) && ViewReplay(c.v1, middle) == Some(c.v2)
    ensures ViewReplay(c.vA[t := (c.vA[t] - {from})[added.added.name := merged]], middle) == Some(w2)
    ensures AgreeExcept(c.v3, w2, t, {added.added.name}) && added.added.name in w2[t]
    ensures c.v3 == w2 <==> c.v3[t][added.added.name] == merged
  {
    var to, v3 := added.added.name, c.v3;
    var X, w1 := {from, to}, c.vA[t := (c.vA[t] - {from})[to := merged]];
    assert from in X && to in X;
    assert AgreeExcept(c.v1, w1, t, X);
    ColumnFrameReplay(c.v1, w1, middle, t, X);
    w2 := ViewReplay(w1, middle).value;
    assert AgreeExcept(v3, w2, t, X);
    assert to in w2[t] && w2[t][to] == merged && (from != to ==> from !in w2[t]);
    if v3[t][to] == merged {
      AgreeAndSame(v3[t], w2[t], X);
      AgreeAndSame(v3, w2, {t});
    }
  }

  lemma ColumnRenameCore(baseline: seq<TableDef>, actions: seq<Action>, lo: nat, hi: nat, t: string, from: string,
      added: Action)
    returns (v3: View, w2: View)
    requires Wf(baseline) && ColumnPairAt(actions, lo, hi, t, from, added)
    requires ViewReplay(ViewSchema(baseline), actions).Some?
    ensures ViewReplay(v3, actions[hi + 1..]) == ViewReplay(ViewSchema(baseline), actions)
    ensures ViewReplay(w2, actions[hi + 1..]) ==
            ViewReplay(ViewSchema(baseline),
              Splice(actions, lo, hi, Replacement(baseline, ColumnTarget(t, from), added.added.name, added)))
    ensures BaselineColumn(baseline, t, from).Some?
    ensures AgreeExcept(v3, w2, t, {added.added.name}) && added.added.name in v3[t] && added.added.name in w2[t]
    ensures v3 == w2 <==> !ZeroClash(BaselineColumn(baseline, t, from).value.default, added.added.default)
  {
    var v := ViewSchema(baseline);
    var to := added.added.name;
    var c := ColumnCut(v, actions, lo, hi, t, from, added);
    var was := ColumnMiddle(c.vA, baseline, t, from, added);
    w2 := ColumnJoin(v, c, actions[lo + 1..hi], t, from, added, Merged(was, added.added));
    v3 := c.v3;
    SpliceReplay(v, actions, lo, hi, Replacement(baseline, ColumnTarget(t, from), to, added), c.vA,
      c.vA[t := (c.vA[t] - {from})[to := Merged(was, added.added)]], w2);
  }

  lemma ColumnPairCut(actions: seq<Action>, baseline: seq<TableDef>, t: string, from: string, to: string)
    returns (lo: nat, hi: nat, added: Action)
    requires ColumnPairIsolated(actions, t, from, to)
    ensures added == actions[Position(actions, AddOf(ColumnTarget(t, from), to))]
    ensures Matches(AddOf(ColumnTarget(t, from), to), added) && ColumnPairAt(actions, lo, hi, t, from, added)
    ensures Rewrite(actions, baseline, ColumnTarget(t, from), to) ==
      Ok(Splice(actions, lo, hi, Replacement(baseline, ColumnTarget(t, from), to, added)))
    ensures Places(lo, hi, Position(actions, DropOf(ColumnTarget(t, from))),
      Position(actions, AddOf(ColumnTarget(t, from), to)))
  {
    var d, c := Position(actions, DropOf(ColumnTarget(t, from))), Position(actions, AddOf(ColumnTarget(t, from), to));
    lo, hi, added := if d < c then d else c, if d < c then c else d, actions[c];
    var B, X := actions[lo + 1..hi], {from, to};
    forall i, x | 0 <= i < |B| && x in X ensures !Touches(B[i], t, x) {
      assert B[i] == actions[lo + 1 + i];
    }
  }

  /** A table present after actions that only edit its columns was present before them. */
  lemma {:induction false} TablePersists(v: View, actions: seq<Action>, t: string, X: set<string>)
    requires X != {} && AvoidsColumns(actions, t, X)
    requires ViewReplay(v, actions).Some? && t in ViewReplay(v, actions).value
    ensures t in v
    decreases |actions|
  {
    if actions != [] {
      assert AvoidsColumns(actions[1..], t, X) by {
        assert forall i :: 0 <= i < |actions| - 1 ==> actions[1..][i] == actions[i + 1];
      }
      TablePersists(ViewStep(v, actions[0]).value, actions[1..], t, X);
      var c :| c in X;
      assert !Touches(actions[0], t, c);
      if !NamesTable(actions[0], t) {
        TableFrame(v, v, actions[0], {t});
        assert t in {t};
      }
    }
  }

  /** Column rename preserves meaning. */
  lemma ColumnRenamePreservesMeaning(baseline: seq<TableDef>, actions: seq<Action>, t: string, from: string, to: string)
    requires CleanReplay(baseline, actions)
    requires ColumnPairIsolated(actions, t, from, to)
    requires
      var was := BaselineColumn(baseline, t, from);
      var added := actions[Position(actions, AddOf(ColumnTarget(t, from), to))].added;
      was.Some? ==> !ZeroClash(was.value.default, added.default)
    ensures Rewrite(actions, baseline, ColumnTarget(t, from), to).Ok?
    ensures SameMeaning(baseline, actions, Rewrite(actions, baseline, ColumnTarget(t, from), to).value)
  {
    CleanReplayView(baseline, actions);
    var lo, hi, added := ColumnPairCut(actions, baseline, t, from, to);
    var v3, w2 := ColumnRenameCore(baseline, actions, lo, hi, t, from, added);
    SameViewSameMeaning(baseline, actions, ColumnTarget(t, from), to);
  }

  lemma ColumnDifferenceStays(v: View, w: View, actions: seq<Action>, t: string, c: string)
    requires AgreeExcept(v, w, t, {c}) && c in v[t] && c in w[t] && v != w
    requires AvoidsColumns(actions, t, {c}) && ViewReplay(v, actions).Some?
    ensures ViewReplay(v, actions) != ViewReplay(w, actions)
  {
    if v[t][c] == w[t][c] {
      AgreeAndSame(v[t], w[t], {c});
      AgreeAndSame(v, w, {t});
    }
    ColumnFrameReplay(v, w, actions, t, {c});
    assert c in {c};
  }

  /** When nothing behind the pair touches the new column, the view is kept exactly when the float
      zero keeps its sign. */
  lemma ColumnRenameExact(baseline: seq<TableDef>, actions: seq<Action>, t: string, from: string, to: string)
    requires CleanReplay(baseline, actions)
    requires ColumnPairIsolated(actions, t, from, to)
    requires
      var d, c := Position(actions, DropOf(ColumnTarget(t, from))), Position(actions, AddOf(ColumnTarget(t, from), to));
      forall k :: d < k < |actions| && c < k ==> !Touches(actions[k], t, to)
    ensures Rewrite(actions, baseline, ColumnTarget(t, from), to).Ok?
    ensures BaselineColumn(baseline, t, from).Some?
    ensures
      var rewritten := Rewrite(actions, baseline, ColumnTarget(t, from), to).value;
      ViewReplay(ViewSchema(baseline), rewritten) == ViewReplay(ViewSchema(baseline), actions) <==>
      !ZeroClash(BaselineColumn(baseline, t, from).value.default,
        actions[Position(actions, AddOf(ColumnTarget(t, from), to))].added.default)
  {
    CleanReplayView(baseline, actions);
    var lo, hi, added := ColumnPairCut(actions, baseline, t, from, to);
    var v3, w2 := ColumnRenameCore(baseline, actions, lo, hi, t, from, added);
    if v3 != w2 {
      TailAvoidsColumn(actions, lo, hi, t, from, to);
      ColumnDifferenceStays(v3, w2, actions[hi + 1..], t, to);
    }
  }

  lemma TailAvoidsColumn(actions: seq<Action>, lo: nat, hi: nat, t: string, from: string, to: string)
    requires lo < hi < |actions|
    requires Places(lo, hi, Position(actions, DropOf(ColumnTarget(t, from))),
      Position(actions, AddOf(ColumnTarget(t, from), to)))
    requires
      var d, c := Position(actions, DropOf(ColumnTarget(t, from))), Position(actions, AddOf(ColumnTarget(t, from), to));
      forall k :: d < k < |actions| && c < k ==> !Touches(actions[k], t, to)
    ensures AvoidsColumns(actions[hi + 1..], t, {to})
  {
    var d, c, C := Position(actions, DropOf(ColumnTarget(t, from))),
      Position(actions, AddOf(ColumnTarget(t, from), to)), actions[hi + 1..];
    forall i | 0 <= i < |C| ensures !Touches(C[i], t, to) {
      assert C[i] == actions[hi + 1 + i];
    }
  }

  /** A column added and dropped again cannot become a rename: there is nothing to rename yet. */
  lemma AddThenDropIsNoRename(t: TableDef, added: ColumnDef)
    requires FindColumn(t.columns, added.name) == |t.columns|
    ensures
      var actions := [AddColumn(t.name, added), DeleteColumn(t.name, added.name)];
      var rewritten := Rewrite(actions, [t], ColumnTarget(t.name, added.name), added.name);
      rewritten.Ok? && Replay([t], rewritten.value) == Err(ColumnNotFound(t.name, added.name))
  {
    var actions := [AddColumn(t.name, added), DeleteColumn(t.name, added.name)];
    var source := ColumnTarget(t.name, added.name);
    assert Matches(AddOf(source, added.name), actions[0]) && Matches(DropOf(source), actions[1]);
    var r := Rewrite(actions, [t], source, added.name).value;
    assert r[0] == RenameColumn(t.name, added.name, added.name);
  }
}
