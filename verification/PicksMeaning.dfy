/** A whole sequence of choices: the plan they leave means what the original plan meant. */
module PicksMeaning {
  import opened Common
  import opened Schema
  import opened ColumnView
  import opened TableDiff
  import opened DropResolution
  import opened RenameMeaning

  /** The action has to do with what the choice drops or with the new name it takes. */
  predicate Disturbs(source: DropTarget, target: string, a: Action) {
    match source
    case TableTarget(from) => NamesTable(a, from) || NamesTable(a, target)
    case ColumnTarget(t, from) => Touches(a, t, from) || Touches(a, t, target)
  }

  /** No float zero changes sign between what is dropped and what is added. */
  ghost predicate KeepsZeros(baseline: seq<TableDef>, source: DropTarget, target: string, added: Action)
    requires Matches(AddOf(source, target), added)
  {
    match source
    case TableTarget(from) =>
      var was := BaselineTable(baseline, from);
      was.Some? ==> NoZeroClash(was.value.columns, added.columns)
    case ColumnTarget(t, from) =>
      var was := BaselineColumn(baseline, t, from);
      was.Some? ==> !ZeroClash(was.value.default, added.added.default)
  }

  /** The drop stands at `d`, the add at `c`, and nothing else in the plan has to do with them. */
  ghost predicate ApartAt(actions: seq<Action>, baseline: seq<TableDef>, source: DropTarget, target: string, d: int,
      c: int) {
    && 0 <= d < |actions| && 0 <= c < |actions|
    && Matches(DropOf(source), actions[d]) && Matches(AddOf(source, target), actions[c])
    && (forall k :: 0 <= k < |actions| && k != d && k != c ==> !Disturbs(source, target, actions[k]))
    && (match source case TableTarget(from) => from != target case ColumnTarget(_, from) => c < d ==> from != target)
    && KeepsZeros(baseline, source, target, actions[c])
  }

  ghost predicate Apart(actions: seq<Action>, baseline: seq<TableDef>, p: Pick) {
    p.choice.RenameTo? ==> exists d, c :: ApartAt(actions, baseline, p.source, p.choice.target, d, c)
  }

  lemma MatchDisturbs(source: DropTarget, target: string, a: Action)
    ensures Matches(DropOf(source), a) || Matches(AddOf(source, target), a) ==> Disturbs(source, target, a)
  {
  }

  lemma ApartPositions(actions: seq<Action>, baseline: seq<TableDef>, source: DropTarget, target: string, d: int,
      c: int)
    requires ApartAt(actions, baseline, source, target, d, c)
    ensures Position(actions, DropOf(source)) == d && Position(actions, AddOf(source, target)) == c && d != c
  {
    var i, j := Position(actions, DropOf(source)), Position(actions, AddOf(source, target));
    if i < |actions| {
      MatchDisturbs(source, target, actions[i]);
    }
    if j < |actions| {
      MatchDisturbs(source, target, actions[j]);
    }
  }

  // ---------------------------------------------------------------- one choice

  lemma TableChoiceKeepsView(baseline: seq<TableDef>, actions: seq<Action>, from: string, to: string, d: int, c: int)
    requires Wf(baseline) && ViewReplay(ViewSchema(baseline), actions).Some?
    requires ApartAt(actions, baseline, TableTarget(from), to, d, c)
    ensures Rewrite(actions, baseline, TableTarget(from), to).Ok?
    ensures ViewReplay(ViewSchema(baseline), Rewrite(actions, baseline, TableTarget(from), to).value) ==
      ViewReplay(ViewSchema(baseline), actions)
  {
    ApartPositions(actions, baseline, TableTarget(from), to, d, c);
    forall k | 0 <= k < |actions| && k != d && k != c
      ensures !NamesTable(actions[k], from) && !NamesTable(actions[k], to)
    {
      assert !Disturbs(TableTarget(from), to, actions[k]);
    }
    var lo, hi, created := TablePairCut(actions, baseline, from, to);
    var v3, w2 := TableRenameCore(baseline, actions, lo, hi, from, created);
  }

  lemma ColumnChoiceKeepsView(baseline: seq<TableDef>, actions: seq<Action>, t: string, from: string, to: string,
      d: int, c: int)
    requires Wf(baseline) && ViewReplay(ViewSchema(baseline), actions).Some?
    requires ApartAt(actions, baseline, ColumnTarget(t, from), to, d, c)
    ensures Rewrite(actions, baseline, ColumnTarget(t, from), to).Ok?
    ensures ViewReplay(ViewSchema(baseline), Rewrite(actions, baseline, ColumnTarget(t, from), to).value) ==
      ViewReplay(ViewSchema(baseline), actions)
  {
    ApartPositions(actions, baseline, ColumnTarget(t, from), to, d, c);
    forall k | 0 <= k < |actions| && k != d && k != c
      ensures !Touches(actions[k], t, from) && !Touches(actions[k], t, to)
    {
      assert !Disturbs(ColumnTarget(t, from), to, actions[k]);
    }
    var lo, hi, added := ColumnPairCut(actions, baseline, t, from, to);
    var v3, w2 := ColumnRenameCore(baseline, actions, lo, hi, t, from, added);
  }

  lemma ChoiceKeepsView(baseline: seq<TableDef>, actions: seq<Action>, p: Pick)
    requires Wf(baseline) && ViewReplay(ViewSchema(baseline), actions).Some? && Apart(actions, baseline, p)
    ensures
      var r := ApplyChoice(actions, baseline, p.source, p.choice);
      r.Ok? && ViewReplay(ViewSchema(baseline), r.value) == ViewReplay(ViewSchema(baseline), actions)
  {
    if p.choice.RenameTo? {
      var d, c :| ApartAt(actions, baseline, p.source, p.choice.target, d, c);
      match p.source
      case TableTarget(from) => TableChoiceKeepsView(baseline, actions, from, p.choice.target, d, c);
      case ColumnTarget(t, from) => ColumnChoiceKeepsView(baseline, actions, t, from, p.choice.target, d, c);
    }
  }

  // ---------------------------------------------------------------- other choices stay apart

  lemma SpliceFrom(actions: seq<Action>, lo: nat, hi: nat, middle: seq<Action>, k: nat) returns (i: int)
    requires lo < hi < |actions| && k < |Splice(actions, lo, hi, middle)| && !(lo <= k < lo + |middle|)
    ensures 0 <= i < |actions| && i != lo && i != hi && Shifted(lo, hi, |middle|, i) == k
  {
    var m := |middle|;
    i := if k < lo then k else if k - m + 1 < hi then k - m + 1 else k - m + 2;
  }

  lemma SpliceMiddle(actions: seq<Action>, lo: nat, hi: nat, middle: seq<Action>, k: nat)
    requires lo < hi < |actions| && lo <= k < lo + |middle|
    ensures k < |Splice(actions, lo, hi, middle)| && Splice(actions, lo, hi, middle)[k] in middle
  {
    assert Splice(actions, lo, hi, middle)[k] == middle[k - lo];
  }

  lemma DiffOnTable(table: string, was: seq<ColumnDef>, now: seq<ColumnDef>)
    ensures forall a :: a in DiffColumns(table, was, now) ==> IsTableLocal(a) && a.table == table
  {
    DeletesAre(table, was, ByName(now).Keys);
    AddsAre(table, now, ByName(was).Keys);
    ModifiesAre(table, now, ByName(was));
  }

  lemma TableReplacementSpares(baseline: seq<TableDef>, from: string, to: string, added: Action, other: DropTarget,
      name: string, a: Action)
    requires Matches(AddOf(TableTarget(from), to), added) && a in Replacement(baseline, TableTarget(from), to, added)
    requires !Disturbs(other, name, DeleteTable(from)) && !Disturbs(other, name, added)
    ensures !Disturbs(other, name, a)
  {
    if a != RenameTable(from, to) {
      TableFollowUp(baseline, from, to, added, a);
    }
  }

  lemma TableFollowUp(baseline: seq<TableDef>, from: string, to: string, added: Action, a: Action)
    requires Matches(AddOf(TableTarget(from), to), added)
    requires a in Replacement(baseline, TableTarget(from), to, added) && a != RenameTable(from, to)
    ensures IsTableLocal(a) && a.table == to
  {
    var was := BaselineTable(baseline, from);
    var diff, cons := DiffColumns(to, was.value.columns, added.columns),
      DiffConstraints(to, was.value.constraints, added.constraints);
    DiffOnTable(to, was.value.columns, added.columns);
    ConstraintActionsLocal(to, was.value.constraints, added.constraints);
    assert a in diff || a in cons;
  }

  lemma ColumnReplacementSpares(baseline: seq<TableDef>, t: string, from: string, to: string, added: Action,
      other: DropTarget, name: string, a: Action)
    requires Matches(AddOf(ColumnTarget(t, from), to), added)
    requires a in Replacement(baseline, ColumnTarget(t, from), to, added)
    requires !Disturbs(other, name, DeleteColumn(t, from)) && !Disturbs(other, name, added)
    ensures !Disturbs(other, name, a)
  {
    assert a == RenameColumn(t, from, to) || (IsColumnEdit(a) && a.table == t && a.column == to);
  }

  lemma ReplacementSpares(baseline: seq<TableDef>, source: DropTarget, target: string, drop: Action, added: Action,
      other: DropTarget, name: string, a: Action)
    requires Matches(DropOf(source), drop) && Matches(AddOf(source, target), added)
    requires a in Replacement(baseline, source, target, added)
    requires !Disturbs(other, name, drop) && !Disturbs(other, name, added)
    ensures !Disturbs(other, name, a)
  {
    match source
    case TableTarget(from) => TableReplacementSpares(baseline, from, target, added, other, name, a);
    case ColumnTarget(t, from) => ColumnReplacementSpares(baseline, t, from, target, added, other, name, a);
  }

  /** Applying one choice leaves an independent one apart, at shifted positions. */
  lemma StaysApart(actions: seq<Action>, baseline: seq<TableDef>, p: Pick, q: Pick)
    requires p.choice.RenameTo? && Apart(actions, baseline, p) && Apart(actions, baseline, q)
    requires Rewrite(actions, baseline, p.source, p.choice.target).Ok?
    requires p.source != q.source
    requires (q.choice.RenameTo? ==> !SameAdd(p.source, p.choice.target, q.source, q.choice.target))
    ensures Apart(Rewrite(actions, baseline, p.source, p.choice.target).value, baseline, q)
  {
    if q.choice.RenameTo? {
      var d, c :| ApartAt(actions, baseline, p.source, p.choice.target, d, c);
      var e, f :| ApartAt(actions, baseline, q.source, q.choice.target, e, f);
      ApartPositions(actions, baseline, p.source, p.choice.target, d, c);
      PairsDiffer(actions, baseline, p, q, d, c, e, f);
      var lo, hi := if d < c then d else c, if d < c then c else d;
      var middle := Replacement(baseline, p.source, p.choice.target, actions[c]);
      ShiftedApart(actions, baseline, p, q, d, c, e, f, lo, hi, middle);
    }
  }

  lemma PairsDiffer(actions: seq<Action>, baseline: seq<TableDef>, p: Pick, q: Pick, d: int, c: int, e: int, f: int)
    requires p.choice.RenameTo? && q.choice.RenameTo?
    requires ApartAt(actions, baseline, p.source, p.choice.target, d, c)
    requires ApartAt(actions, baseline, q.source, q.choice.target, e, f)
    requires p.source != q.source && !SameAdd(p.source, p.choice.target, q.source, q.choice.target)
    ensures d != e && d != f && c != e && c != f
  {
  }

  lemma ShiftedApart(actions: seq<Action>, baseline: seq<TableDef>, p: Pick, q: Pick, d: int, c: int, e: int, f: int,
      lo: nat, hi: nat, middle: seq<Action>)
    requires p.choice.RenameTo? && q.choice.RenameTo?
    requires ApartAt(actions, baseline, p.source, p.choice.target, d, c)
    requires ApartAt(actions, baseline, q.source, q.choice.target, e, f)
    requires d != e && d != f && c != e && c != f && lo < hi < |actions|
    requires ((lo == d && hi == c) || (lo == c && hi == d))
    requires middle == Replacement(baseline, p.source, p.choice.target, actions[c])
    ensures ApartAt(Splice(actions, lo, hi, middle), baseline, q.source, q.choice.target,
                    Shifted(lo, hi, |middle|, e), Shifted(lo, hi, |middle|, f))
  {
    var r, m := Splice(actions, lo, hi, middle), |middle|;
    SpliceAt(actions, lo, hi, middle, e);
    SpliceAt(actions, lo, hi, middle, f);
    var e', f' := Shifted(lo, hi, m, e), Shifted(lo, hi, m, f);
    forall k | 0 <= k < |r| && k != e' && k != f' ensures !Disturbs(q.source, q.choice.target, r[k]) {
      if lo <= k < lo + m {
        SpliceMiddle(actions, lo, hi, middle, k);
        ReplacementSpares(baseline, p.source, p.choice.target, actions[d], actions[c], q.source, q.choice.target, r[k]);
      } else {
        var i := SpliceFrom(actions, lo, hi, middle, k);
        SpliceAt(actions, lo, hi, middle, i);
      }
    }
  }

  // ---------------------------------------------------------------- all choices

  /** Choices whose pairs nothing else in the plan has to do with, applied one after another as the
      `revision` command does, leave a plan with the original's column view. */
  lemma {:induction false} PicksKeepView(baseline: seq<TableDef>, actions: seq<Action>, picks: seq<Pick>)
    requires Wf(baseline) && ViewReplay(ViewSchema(baseline), actions).Some?
    requires Independent(picks) && forall i :: 0 <= i < |picks| ==> Apart(actions, baseline, picks[i])
    ensures
      var r := ApplyPicks(actions, baseline, picks);
      r.Ok? && ViewReplay(ViewSchema(baseline), r.value) == ViewReplay(ViewSchema(baseline), actions)
    decreases |picks|
  {
    if picks != [] {
      var p, rest := picks[0], picks[1..];
      assert Apart(actions, baseline, p);
      ChoiceKeepsView(baseline, actions, p);
      var next := ApplyChoice(actions, baseline, p.source, p.choice).value;
      assert forall i :: 0 <= i < |rest| ==> rest[i] == picks[i + 1];
      forall i | 0 <= i < |rest| ensures Apart(next, baseline, rest[i]) {
        if p.choice.RenameTo? {
          StaysApart(actions, baseline, p, picks[i + 1]);
        }
      }
      PicksKeepView(baseline, next, rest);
    }
  }

  lemma {:induction false} PicksNoReplace(actions: seq<Action>, baseline: seq<TableDef>, picks: seq<Pick>)
    requires NoReplace(actions) && ApplyPicks(actions, baseline, picks).Ok?
    ensures NoReplace(ApplyPicks(actions, baseline, picks).value)
    decreases |picks|
  {
    if picks != [] {
      if picks[0].choice.RenameTo? {
        RewriteNoReplace(actions, baseline, picks[0].source, picks[0].choice.target);
      }
      PicksNoReplace(ApplyChoice(actions, baseline, picks[0].source, picks[0].choice).value, baseline, picks[1..]);
    }
  }

  /** So the plan `ApplyChosen` leaves means what the original plan meant. */
  lemma PicksPreserveMeaning(baseline: seq<TableDef>, actions: seq<Action>, picks: seq<Pick>)
    requires CleanReplay(baseline, actions)
    requires Independent(picks) && forall i :: 0 <= i < |picks| ==> Apart(actions, baseline, picks[i])
    ensures ApplyPicks(actions, baseline, picks).Ok?
    ensures SameMeaning(baseline, actions, ApplyPicks(actions, baseline, picks).value)
  {
    CleanReplayView(baseline, actions);
    PicksKeepView(baseline, actions, picks);
    ViewReplayRefined(baseline, ApplyPicks(actions, baseline, picks).value);
    if NoReplace(actions) {
      PicksNoReplace(actions, baseline, picks);
    }
  }
}
