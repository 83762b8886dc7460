/** What a plan makes of one table, and which of its constraints a later action finds after a column of it
    was renamed. */
module RenameFollow {
  import opened Common
  import opened Schema
  import opened ColumnView
  import opened References
  import opened TableDiff
  import opened DropResolution
  import opened RenameMeaning
  import opened RenameReplay

  // ---------------------------------------------------------------- one table through a plan

  /** What an action that succeeds does to table `t`, as long as it does not rename it. */
  function FollowOne(o: Option<TableDef>, t: string, a: Action): Option<TableDef> {
    if IsTableLocal(a) then
      if a.table != t || o.None? then o
      else (match ApplyToTable(o.value, a) case Ok(d) => Some(d) case Err(_) => o)
    else match a
    case CreateTable(n, cols, cs) => if n == t then Some(TableDef(t, cols, Promote(cols, cs))) else o
    case DeleteTable(n) => if n == t then None else o
    case RenameTable(from, to) => Retargeted(o, from, to)
    case RawSql(_) => o
    case DataMigration(_) => o
  }

  function Follow(o: Option<TableDef>, t: string, actions: seq<Action>): Option<TableDef>
    decreases |actions|
  {
    if actions == [] then o else Follow(FollowOne(o, t, actions[0]), t, actions[1..])
  }

  lemma RenameElsewhere(s: seq<TableDef>, from: string, to: string, o: string)
    requires ApplyAction(s, RenameTable(from, to)).Ok? && o != from && o != to
    ensures BaselineTable(ApplyAction(s, RenameTable(from, to)).value, o) == Retargeted(BaselineTable(s, o), from, to)
  {
    var i, r := FindTable(s, from), ApplyAction(s, RenameTable(from, to)).value;
    assert forall j :: 0 <= j < |s| ==> r[j].name == if j == i then to else s[j].name;
    var k := FindTable(r, o);
    assert k < |r| ==> k != i && FindTable(s, o) == k;
  }

  lemma DeletedNow(s: seq<TableDef>, t: string)
    ensures BaselineTable(WithoutTable(s, t), t) == None
  {
  }

  lemma FollowsOne(s: seq<TableDef>, a: Action, t: string)
    requires ApplyAction(s, a).Ok? && (a.RenameTable? ==> a.from != t && a.to != t)
    ensures BaselineTable(ApplyAction(s, a).value, t) == FollowOne(BaselineTable(s, t), t, a)
  {
    if IsTableLocal(a) {
      AtLocal(s, a, t);
    } else if a.CreateTable? {
      AtAppend(s, TableDef(a.table, a.columns, Promote(a.columns, a.constraints)), t);
    } else if a.DeleteTable? {
      if a.table == t {
        DeletedNow(s, t);
      } else {
        AtWithout(s, a.table, t);
      }
    } else if a.RenameTable? {
      RenameElsewhere(s, a.from, a.to, t);
    }
  }

  lemma {:induction false} Follows(s: seq<TableDef>, actions: seq<Action>, t: string)
    requires Replay(s, actions).Ok?
    requires forall i :: 0 <= i < |actions| && actions[i].RenameTable? ==> actions[i].from != t && actions[i].to != t
    ensures BaselineTable(Replay(s, actions).value, t) == Follow(BaselineTable(s, t), t, actions)
    decreases |actions|
  {
    if actions != [] {
      FollowsOne(s, actions[0], t);
      Follows(ApplyAction(s, actions[0]).value, actions[1..], t);
    }
  }

  // ---------------------------------------------------------------- tables up to column types

  /** The columns differ in type, nullability and default at most. */
  predicate AlikeColumns(a: seq<ColumnDef>, b: seq<ColumnDef>) {
    && |a| == |b|
    && forall i :: 0 <= i < |a| ==>
      a[i] == b[i].(ty := a[i].ty, nullable := a[i].nullable, default := a[i].default, comment := a[i].comment)
  }

  predicate AlikeTables(x: TableDef, y: TableDef) {
    x.name == y.name && x.constraints == y.constraints && AlikeColumns(x.columns, y.columns)
  }

  predicate Alike(x: Option<TableDef>, y: Option<TableDef>) {
    (x.None? && y.None?) || (x.Some? && y.Some? && AlikeTables(x.value, y.value))
  }

  lemma {:induction false} FindAlike(a: seq<ColumnDef>, b: seq<ColumnDef>, name: string)
    requires AlikeColumns(a, b)
    ensures FindColumn(a, name) == FindColumn(b, name)
  {
    if a != [] {
      FindAlike(a[1..], b[1..], name);
    }
  }

  lemma AlikeConcat(a: seq<ColumnDef>, b: seq<ColumnDef>, c: seq<ColumnDef>, d: seq<ColumnDef>)
    requires AlikeColumns(a, b) && AlikeColumns(c, d)
    ensures AlikeColumns(a + c, b + d)
  {
  }

  lemma {:induction false} WithoutAlike(a: seq<ColumnDef>, b: seq<ColumnDef>, name: string)
    requires AlikeColumns(a, b)
    ensures AlikeColumns(WithoutColumn(a, name), WithoutColumn(b, name))
  {
    if a != [] {
      WithoutAlike(a[1..], b[1..], name);
      if a[0].name != name {
        AlikeConcat([a[0]], [b[0]], WithoutColumn(a[1..], name), WithoutColumn(b[1..], name));
      } else {
        assert [] + WithoutColumn(a[1..], name) == WithoutColumn(a[1..], name);
        assert [] + WithoutColumn(b[1..], name) == WithoutColumn(b[1..], name);
      }
    }
  }

  lemma {:induction false} ReferencesAlike(a: seq<ColumnDef>, b: seq<ColumnDef>, cs: seq<TableConstraint>)
    requires AlikeColumns(a, b)
    ensures WithReferences(a, cs) == WithReferences(b, cs)
    decreases |a|
  {
    if a != [] {
      var c := a[0];
      if c.reference.Some? && !HasForeignKey(cs, c.name) {
        ReferencesAlike(a[1..], b[1..], cs + [OwnReference(c)]);
      } else {
        ReferencesAlike(a[1..], b[1..], cs);
      }
    }
  }

  lemma PromoteAlike(a: seq<ColumnDef>, b: seq<ColumnDef>, cs: seq<TableConstraint>)
    requires AlikeColumns(a, b)
    ensures Promote(a, cs) == Promote(b, cs)
  {
    SameKeys(a, b, Plain(cs));
    ReferencesAlike(a, b, cs + NewKeys(a, Plain(cs)));
  }

  lemma ClearAlike(table: string, a: seq<ColumnDef>, b: seq<ColumnDef>, c: TableConstraint)
    requires AlikeColumns(a, b)
    ensures AlikeColumns(ClearInline(table, a, c), ClearInline(table, b, c))
  {
    var r, q := ClearInline(table, a, c), ClearInline(table, b, c);
    forall i | 0 <= i < |a|
      ensures r[i] == q[i].(ty := r[i].ty, nullable := r[i].nullable, default := r[i].default, comment := r[i].comment)
    {
      FindAlike(a, b, a[i].name);
      OneClearedAlike(table, a[i], b[i], FindColumn(a, a[i].name) == i, c);
    }
  }

  lemma OneClearedAlike(table: string, x: ColumnDef, y: ColumnDef, first: bool, c: TableConstraint)
    requires x == y.(ty := x.ty, nullable := x.nullable, default := x.default, comment := x.comment)
    ensures
      var r, q := ClearColumn(table, x, first, c), ClearColumn(table, y, first, c);
      r == q.(ty := r.ty, nullable := r.nullable, default := r.default, comment := r.comment)
  {
  }

  ghost predicate AlikeOutcome(r: Result<TableDef, PlannerError>, q: Result<TableDef, PlannerError>) {
    (r.Ok? <==> q.Ok?) && (r.Ok? ==> AlikeTables(r.value, q.value))
  }

  lemma ColumnsAlike(x: TableDef, y: TableDef, a: Action)
    requires AlikeTables(x, y) && IsTableLocal(a) && !a.AddConstraint? && !a.RemoveConstraint? && !a.ReplaceConstraint?
    ensures AlikeOutcome(ApplyToTable(x, a), ApplyToTable(y, a))
  {
    if IsColumnEdit(a) {
      FindAlike(x.columns, y.columns, a.column);
    } else if a.AddColumn? {
      AddAlike(x, y, a.table, a.added);
    } else if a.DeleteColumn? {
      WithoutAlike(x.columns, y.columns, a.column);
    } else {
      FindAlike(x.columns, y.columns, a.from);
    }
  }

  lemma AddAlike(x: TableDef, y: TableDef, table: string, c: ColumnDef)
    requires AlikeTables(x, y)
    ensures AlikeOutcome(ApplyToTable(x, AddColumn(table, c)), ApplyToTable(y, AddColumn(table, c)))
  {
    var a, b := x.columns + [c], y.columns + [c];
    FindAlike(x.columns, y.columns, c.name);
    AlikeConcat(x.columns, y.columns, [c], [c]);
    assert AllInlineOk(a) <==> AllInlineOk(b) by {
      assert forall i :: 0 <= i < |a| ==> a[i].inlineOk == b[i].inlineOk;
    }
    if FindColumn(x.columns, c.name) == |x.columns| && AllInlineOk(a) {
      AddOutcome(x, table, c);
      AddOutcome(y, table, c);
      PromoteAlike(a, b, x.constraints);
    }
  }

  lemma LocalAlike(x: TableDef, y: TableDef, a: Action)
    requires AlikeTables(x, y) && IsTableLocal(a)
    ensures AlikeOutcome(ApplyToTable(x, a), ApplyToTable(y, a))
  {
    if a.RemoveConstraint? {
      ClearAlike(a.table, x.columns, y.columns, a.constraint);
    } else if a.ReplaceConstraint? {
      ClearAlike(a.table, x.columns, y.columns, a.before);
    } else if !a.AddConstraint? {
      ColumnsAlike(x, y, a);
    }
  }

  lemma {:induction false} FollowAlike(x: Option<TableDef>, y: Option<TableDef>, t: string, actions: seq<Action>)
    requires Alike(x, y)
    ensures Alike(Follow(x, t, actions), Follow(y, t, actions))
    decreases |actions|
  {
    if actions != [] {
      var a := actions[0];
      if x.Some? && IsTableLocal(a) {
        LocalAlike(x.value, y.value, a);
      }
      FollowAlike(FollowOne(x, t, a), FollowOne(y, t, a), t, actions[1..]);
    }
  }

  // ---------------------------------------------------------------- the renamed table

  /** The table with its column renamed, as `rename_column` leaves it. */
  function WithRenamed(t: TableDef, from: string, to: string): TableDef {
    var r := ApplyToTable(t, RenameColumn(t.name, from, to));
    if r.Ok? then r.value else t
  }

  /** What stands in place of the pair renames the column and edits it. */
  lemma ReplacedTable(s: seq<TableDef>, w: seq<TableDef>, t: string, from: string, to: string, edits: seq<Action>)
    requires forall i :: 0 <= i < |edits| ==> IsColumnEdit(edits[i]) && edits[i].table == t
    requires Replay(s, [RenameColumn(t, from, to)] + edits) == Ok(w)
    ensures BaselineTable(s, t).Some?
    ensures Alike(BaselineTable(w, t), Some(WithRenamed(BaselineTable(s, t).value, from, to)))
  {
    var a := RenameColumn(t, from, to);
    assert ([a] + edits)[1..] == edits;
    AtLocal(s, a, t);
    EditsAlike(ApplyAction(s, a).value, edits, t);
  }

  lemma {:induction false} EditsAlike(s: seq<TableDef>, edits: seq<Action>, t: string)
    requires forall i :: 0 <= i < |edits| ==> IsColumnEdit(edits[i]) && edits[i].table == t
    requires Replay(s, edits).Ok? && BaselineTable(s, t).Some?
    ensures Alike(BaselineTable(Replay(s, edits).value, t), BaselineTable(s, t))
    decreases |edits|
  {
    if edits != [] {
      AtLocal(s, edits[0], t);
      EditsAlike(ApplyAction(s, edits[0]).value, edits[1..], t);
    }
  }

  /** The actions behind the earlier of two, but for the later. */
  function OthersBehind(actions: seq<Action>, d: nat, c: nat): seq<Action>
    requires d < |actions| && c < |actions| && d != c
  {
    var lo, hi := if d < c then d else c, if d < c then c else d;
    actions[lo + 1..hi] + actions[hi + 1..]
  }

  /** After any plan that `ColumnRenameReplays` covers, replacing one more constraint of the table works in
      the rewritten plan exactly if the constraint is there once the plan's other actions have been
      followed from the table with its column renamed. */
  lemma ReplaceAfterColumnRename(baseline: seq<TableDef>, actions: seq<Action>, t: string, from: string, to: string,
      strict: bool, key: TableConstraint, newKey: TableConstraint)
    requires ColumnApt(baseline, actions, t, from, to, strict)
    ensures
      var d, c := Position(actions, DropOf(ColumnTarget(t, from))), Position(actions, AddOf(ColumnTarget(t, from), to));
      var start := Replay(baseline, actions[..if d < c then d else c]);
      var rewritten := Rewrite(actions + [ReplaceConstraint(t, key, newKey)], baseline, ColumnTarget(t, from), to);
      && start.Ok? && rewritten.Ok? && BaselineTable(start.value, t).Some?
      && var end := Follow(Some(WithRenamed(BaselineTable(start.value, t).value, from, to)), t,
        OthersBehind(actions, d, c));
         Replay(baseline, rewritten.value).Ok? <==> end.Some? && key in end.value.constraints
  {
    var last := ReplaceConstraint(t, key, newKey);
    var sA := RewrittenTable(baseline, actions, t, from, to, strict);
    var rewritten := Rewrite(actions, baseline, ColumnTarget(t, from), to).value;
    RewriteSnoc(actions, last, baseline, ColumnTarget(t, from), to);
    ReplaySnoc(baseline, rewritten, last);
    ReplaceFinds(Replay(baseline, rewritten).value, t, key, newKey);
  }

  /** Where the rewritten plan leaves the table: where its other actions lead from the renamed one. */
  lemma RewrittenTable(baseline: seq<TableDef>, actions: seq<Action>, t: string, from: string, to: string, strict: bool)
    returns (sA: seq<TableDef>)
    requires ColumnApt(baseline, actions, t, from, to, strict)
    ensures
      var d, c := Position(actions, DropOf(ColumnTarget(t, from))), Position(actions, AddOf(ColumnTarget(t, from), to));
      var rewritten := Rewrite(actions, baseline, ColumnTarget(t, from), to);
      && d < |actions| && c < |actions| && d != c && Replay(baseline, actions[..if d < c then d else c]) == Ok(sA)
      && BaselineTable(sA, t).Some? && rewritten.Ok? && Replay(baseline, rewritten.value).Ok?
      && Alike(BaselineTable(Replay(baseline, rewritten.value).value, t),
               Follow(Some(WithRenamed(BaselineTable(sA, t).value, from, to)), t, OthersBehind(actions, d, c)))
  {
    var lo, hi;
    lo, hi, sA := RewrittenAt(baseline, actions, t, from, to, strict);
    OthersAt(actions, lo, hi, Position(actions, DropOf(ColumnTarget(t, from))),
      Position(actions, AddOf(ColumnTarget(t, from), to)));
  }

  lemma OthersAt(actions: seq<Action>, lo: nat, hi: nat, d: nat, c: nat)
    requires Places(lo, hi, d, c) && hi < |actions|
    ensures d < |actions| && c < |actions| && d != c && lo == (if d < c then d else c)
    ensures OthersBehind(actions, d, c) == actions[lo + 1..hi] + actions[hi + 1..]
  {
  }

  lemma RewrittenAt(baseline: seq<TableDef>, actions: seq<Action>, t: string, from: string, to: string, strict: bool)
    returns (lo: nat, hi: nat, sA: seq<TableDef>)
    requires ColumnApt(baseline, actions, t, from, to, strict)
    ensures lo < hi < |actions| && Replay(baseline, actions[..lo]) == Ok(sA) && BaselineTable(sA, t).Some?
    ensures Places(lo, hi, Position(actions, DropOf(ColumnTarget(t, from))),
      Position(actions, AddOf(ColumnTarget(t, from), to)))
    ensures
      var rewritten := Rewrite(actions, baseline, ColumnTarget(t, from), to);
      && rewritten.Ok? && Replay(baseline, rewritten.value).Ok?
      && Alike(BaselineTable(Replay(baseline, rewritten.value).value, t),
               Follow(Some(WithRenamed(BaselineTable(sA, t).value, from, to)), t,
                 actions[lo + 1..hi] + actions[hi + 1..]))
  {
    var w1;
    lo, hi, sA, w1 := ColumnAptCore(baseline, actions, t, from, to, strict);
    var c := Position(actions, AddOf(ColumnTarget(t, from), to));
    NeighboursDoNotRename(actions, lo, hi, t, from, to, strict);
    FollowsReplacement(baseline, sA, w1, t, from, to, actions[c], actions[lo + 1..hi] + actions[hi + 1..]);
  }

  lemma FollowsReplacement(baseline: seq<TableDef>, s: seq<TableDef>, w: seq<TableDef>, t: string, from: string,
      to: string, added: Action, others: seq<Action>)
    requires Matches(AddOf(ColumnTarget(t, from), to), added)
    requires Replay(s, Replacement(baseline, ColumnTarget(t, from), to, added)) == Ok(w) && Replay(w, others).Ok?
    requires forall i :: 0 <= i < |others| && others[i].RenameTable? ==> others[i].from != t && others[i].to != t
    ensures BaselineTable(s, t).Some?
    ensures Alike(BaselineTable(Replay(w, others).value, t),
      Follow(Some(WithRenamed(BaselineTable(s, t).value, from, to)), t, others))
  {
    var edits := ColumnReplacementShape(baseline, t, from, to, added);
    ReplacedTable(s, w, t, from, to, edits);
    Follows(w, others, t);
    FollowAlike(BaselineTable(w, t), Some(WithRenamed(BaselineTable(s, t).value, from, to)), t, others);
  }

  lemma NeighboursDoNotRename(actions: seq<Action>, lo: nat, hi: nat, t: string, from: string, to: string, strict: bool)
    requires ColumnNeighbours(actions, t, from, to, strict) && lo < hi < |actions|
    requires Places(lo, hi, Position(actions, DropOf(ColumnTarget(t, from))),
      Position(actions, AddOf(ColumnTarget(t, from), to)))
    ensures var others := actions[lo + 1..hi] + actions[hi + 1..];
      forall i :: 0 <= i < |others| && others[i].RenameTable? ==> others[i].from != t && others[i].to != t
  {
    NeighboursBehind(actions, lo, hi, t, from, to, strict);
    var others := actions[lo + 1..hi] + actions[hi + 1..];
    forall i | 0 <= i < |others| && others[i].RenameTable? ensures others[i].from != t && others[i].to != t {
      assert Neighbour(others[i], t, from, to, strict);
    }
  }

  // ---------------------------------------------------------------- a condition on the actions alone

  /** Leaves the table alone, edits a column of it in place, or adds or removes a constraint. */
  predicate ChangesConstraints(a: Action, t: string) {
    || (!a.RenameTable? && !NamesTable(a, t))
    || (IsTableLocal(a) && a.table == t && (a.AddConstraint? || a.RemoveConstraint? || IsColumnEdit(a)))
  }

  /** Whether the last of the actions to add or remove `key` adds it. */
  function LastWord(actions: seq<Action>, t: string, key: TableConstraint): Option<bool> {
    if actions == [] then None else
    var later := LastWord(actions[1..], t, key);
    if later.Some? then later
    else if actions[0] == AddConstraint(t, key) then Some(true)
    else if actions[0] == RemoveConstraint(t, key) then Some(false)
    else None
  }

  lemma {:induction false} WithoutOthers(cs: seq<TableConstraint>, c: TableConstraint, key: TableConstraint)
    ensures key in WithoutConstraint(cs, c) <==> key in cs && key != c
  {
    if cs != [] {
      WithoutOthers(cs[1..], c, key);
    }
  }

  lemma KeyAfterOne(d: TableDef, t: string, a: Action, key: TableConstraint)
    requires ChangesConstraints(a, t)
    ensures FollowOne(Some(d), t, a).Some?
    ensures key in FollowOne(Some(d), t, a).value.constraints <==>
      if a == AddConstraint(t, key) then true else if a == RemoveConstraint(t, key) then false
      else key in d.constraints
  {
    if a.RemoveConstraint? && a.table == t {
      RemoveOutcome(d, t, a.constraint);
      WithoutOthers(d.constraints, a.constraint, key);
    }
  }

  lemma {:induction false} FollowedKey(d: TableDef, t: string, actions: seq<Action>, key: TableConstraint)
    requires forall i :: 0 <= i < |actions| ==> ChangesConstraints(actions[i], t)
    ensures Follow(Some(d), t, actions).Some?
    ensures key in Follow(Some(d), t, actions).value.constraints <==>
      if LastWord(actions, t, key).Some? then LastWord(actions, t, key).value else key in d.constraints
    decreases |actions|
  {
    if actions != [] {
      KeyAfterOne(d, t, actions[0], key);
      FollowedKey(FollowOne(Some(d), t, actions[0]).value, t, actions[1..], key);
    }
  }

  /** If the other actions behind the pair drop, add and rename no column of the table and replace none of
      its constraints, the last of them to add or remove the constraint decides; and if there is none, the
      constraint must be what the rename makes of one the table had before the pair. */
  lemma ReplaceAfterConstraintChanges(baseline: seq<TableDef>, actions: seq<Action>, t: string, from: string,
      to: string, strict: bool, key: TableConstraint, newKey: TableConstraint)
    requires ColumnApt(baseline, actions, t, from, to, strict)
    requires
      var d, c := Position(actions, DropOf(ColumnTarget(t, from))), Position(actions, AddOf(ColumnTarget(t, from), to));
      d < |actions| && c < |actions| && d != c &&
      forall i :: 0 <= i < |OthersBehind(actions, d, c)| ==> ChangesConstraints(OthersBehind(actions, d, c)[i], t)
    ensures
      var d, c := Position(actions, DropOf(ColumnTarget(t, from))), Position(actions, AddOf(ColumnTarget(t, from), to));
      var start := Replay(baseline, actions[..if d < c then d else c]);
      var rewritten := Rewrite(actions + [ReplaceConstraint(t, key, newKey)], baseline, ColumnTarget(t, from), to);
      var word := LastWord(OthersBehind(actions, d, c), t, key);
      && start.Ok? && rewritten.Ok? && BaselineTable(start.value, t).Some?
      && (Replay(baseline, rewritten.value).Ok? <==>
        if word.Some? then word.value else key in RenameInConstraints(ConstraintsOf(start.value, t), from, to))
  {
    var d, c := Position(actions, DropOf(ColumnTarget(t, from))), Position(actions, AddOf(ColumnTarget(t, from), to));
    var sA := RewrittenTable(baseline, actions, t, from, to, strict);
    ReplaceAfterColumnRename(baseline, actions, t, from, to, strict, key, newKey);
    var table := BaselineTable(sA, t).value;
    RenamedConstraints(baseline, actions, t, from, to, strict);
    FollowedKey(WithRenamed(table, from, to), t, OthersBehind(actions, d, c), key);
  }

  lemma ConstraintsRenamed(d: TableDef, from: string, to: string)
    requires FindColumn(d.columns, from) < |d.columns|
    ensures WithRenamed(d, from, to).constraints == RenameInConstraints(d.constraints, from, to)
  {
  }

  lemma RenameFinds(s: seq<TableDef>, t: string, from: string, to: string, edits: seq<Action>)
    requires Replay(s, [RenameColumn(t, from, to)] + edits).Ok? && BaselineTable(s, t).Some?
    ensures
      var cols := BaselineTable(s, t).value.columns;
      FindColumn(cols, from) < |cols|
  {
    assert ([RenameColumn(t, from, to)] + edits)[0] == RenameColumn(t, from, to);
  }

  /** The column is there to be renamed, so its constraints are. */
  lemma RenamedConstraints(baseline: seq<TableDef>, actions: seq<Action>, t: string, from: string, to: string,
      strict: bool)
    requires ColumnApt(baseline, actions, t, from, to, strict)
    ensures
      var d, c := Position(actions, DropOf(ColumnTarget(t, from))), Position(actions, AddOf(ColumnTarget(t, from), to));
      d < |actions| && c < |actions| &&
      var start := Replay(baseline, actions[..if d < c then d else c]);
      start.Ok? && BaselineTable(start.value, t).Some? &&
      WithRenamed(BaselineTable(start.value, t).value, from, to).constraints ==
        RenameInConstraints(ConstraintsOf(start.value, t), from, to)
  {
    var lo, hi, sA, w1 := ColumnAptCore(baseline, actions, t, from, to, strict);
    var c := Position(actions, AddOf(ColumnTarget(t, from), to));
    var edits := ColumnReplacementShape(baseline, t, from, to, actions[c]);
    RenameFinds(sA, t, from, to, edits);
    ConstraintsRenamed(BaselineTable(sA, t).value, from, to);
  }
}
