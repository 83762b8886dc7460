/** A whole sequence of choices in a plan that replaces constraints: the plan they leave replays. */
module PicksReplay {
  import opened Common
  import opened Schema
  import opened ColumnView
  import opened References
  import opened TableDiff
  import opened DropResolution
  import opened RenameMeaning
  import opened PicksMeaning
  import opened RenameReplay

  /** What `TableRenameReplays` and `ColumnRenameReplays` ask of the other actions of a plan. */
  predicate Quiet(source: DropTarget, target: string, a: Action) {
    match source
    case TableTarget(from) => Bystander(a, from, target)
    case ColumnTarget(t, from) => Neighbour(a, t, from, target, false)
  }

  ghost predicate AptAt(actions: seq<Action>, baseline: seq<TableDef>, source: DropTarget, target: string, d: int,
      c: int) {
    && ApartAt(actions, baseline, source, target, d, c)
    && forall k :: 0 <= k < |actions| && k != d && k != c ==> Quiet(source, target, actions[k])
  }

  ghost predicate Apt(actions: seq<Action>, baseline: seq<TableDef>, p: Pick) {
    p.choice.RenameTo? ==> exists d, c :: AptAt(actions, baseline, p.source, p.choice.target, d, c)
  }

  predicate NonePointsAt(cs: seq<TableConstraint>, from: string, to: string) {
    forall i :: 0 <= i < |cs| ==> !PointsTo(cs[i], from) && !PointsTo(cs[i], to)
  }

  /** Neither the table that one choice renames nor the one created in its place has a foreign key to the
      tables of the other, so no follow-up of the one handles one. */
  ghost predicate KeysApart(actions: seq<Action>, baseline: seq<TableDef>, p: Pick, q: Pick) {
    p.choice.RenameTo? && q.choice.RenameTo? && p.source.TableTarget? && q.source.TableTarget? ==>
      var was := BaselineTable(baseline, p.source.name);
      && (was.Some? ==> NonePointsAt(was.value.constraints, q.source.name, q.choice.target))
      && forall a :: a in actions && Matches(AddOf(p.source, p.choice.target), a) ==>
        NonePointsAt(a.constraints, q.source.name, q.choice.target)
  }

  // ---------------------------------------------------------------- one choice

  lemma TableAptness(actions: seq<Action>, baseline: seq<TableDef>, from: string, to: string, d: int, c: int)
    requires CleanReplay(baseline, actions) && Settled(baseline)
    requires AptAt(actions, baseline, TableTarget(from), to, d, c)
    ensures TableApt(baseline, actions, from, to)
  {
    ApartPositions(actions, baseline, TableTarget(from), to, d, c);
    forall k | 0 <= k < |actions| && k != d && k != c
      ensures !NamesTable(actions[k], from) && !NamesTable(actions[k], to) && Bystander(actions[k], from, to)
    {
      assert !Disturbs(TableTarget(from), to, actions[k]) && Quiet(TableTarget(from), to, actions[k]);
    }
  }

  lemma ColumnAptness(actions: seq<Action>, baseline: seq<TableDef>, t: string, from: string, to: string, d: int,
      c: int)
    requires CleanReplay(baseline, actions) && Settled(baseline)
    requires AptAt(actions, baseline, ColumnTarget(t, from), to, d, c)
    ensures ColumnApt(baseline, actions, t, from, to, false)
  {
    ApartPositions(actions, baseline, ColumnTarget(t, from), to, d, c);
    forall k | 0 <= k < |actions| && k != d && k != c
      ensures !Touches(actions[k], t, from) && !Touches(actions[k], t, to) && Neighbour(actions[k], t, from, to, false)
    {
      assert !Disturbs(ColumnTarget(t, from), to, actions[k]) && Quiet(ColumnTarget(t, from), to, actions[k]);
    }
  }

  lemma ChoiceReplays(actions: seq<Action>, baseline: seq<TableDef>, p: Pick)
    requires CleanReplay(baseline, actions) && Settled(baseline) && Apt(actions, baseline, p)
    ensures
      var r := ApplyChoice(actions, baseline, p.source, p.choice);
      && r.Ok? && CleanReplay(baseline, r.value)
      && Replay(baseline, actions).Ok? && Replay(baseline, r.value).Ok?
      && ViewSchema(Replay(baseline, r.value).value) == ViewSchema(Replay(baseline, actions).value)
  {
    CleanReplayView(baseline, actions);
    if p.choice.RenameTo? {
      var d, c :| AptAt(actions, baseline, p.source, p.choice.target, d, c);
      ChoiceKeepsView(baseline, actions, p);
      match p.source {
        case TableTarget(from) =>
          TableAptness(actions, baseline, from, p.choice.target, d, c);
          TableRenameReplays(baseline, actions, from, p.choice.target);
        case ColumnTarget(t, from) =>
          ColumnAptness(actions, baseline, t, from, p.choice.target, d, c);
          ColumnRenameReplays(baseline, actions, t, from, p.choice.target, false);
      }
      CleanExactly(baseline, Rewrite(actions, baseline, p.source, p.choice.target).value);
    }
  }

  // ---------------------------------------------------------------- other choices stay apt

  lemma {:induction false} RemovesAreFrom(table: string, was: seq<TableConstraint>, now: seq<TableConstraint>,
      a: Action)
    requires a in RemoveActions(table, was, now)
    ensures a.RemoveConstraint? && a.table == table && a.constraint in was
  {
    if a in RemoveActions(table, was[1..], now) {
      RemovesAreFrom(table, was[1..], now, a);
    }
  }

  lemma {:induction false} AddedConstraintsAreFrom(table: string, now: seq<TableConstraint>, was: seq<TableConstraint>,
      a: Action)
    requires a in AddConstraintActions(table, now, was)
    ensures a.AddConstraint? && a.table == table && a.constraint in now
  {
    if a in AddConstraintActions(table, now[1..], was) {
      AddedConstraintsAreFrom(table, now[1..], was, a);
    }
  }

  /** Follow-ups of a table choice, as another table choice sees them. */
  lemma FollowUpIsBystander(was: TableDef, to: string, added: Action, from2: string, to2: string, a: Action)
    requires added.CreateTable?
    requires a in DiffColumns(to, was.columns, added.columns) + DiffConstraints(to, was.constraints, added.constraints)
    requires Bystander(added, from2, to2) && added.table == to && to != from2 && to != to2
    requires NonePointsAt(was.constraints, from2, to2) && NonePointsAt(added.constraints, from2, to2)
    ensures Bystander(a, from2, to2)
  {
    DiffOnTable(to, was.columns, added.columns);
    ConstraintActionsLocal(to, was.constraints, added.constraints);
    if a in RemoveActions(to, was.constraints, added.constraints) {
      RemovesAreFrom(to, was.constraints, added.constraints, a);
    } else if a in AddConstraintActions(to, added.constraints, was.constraints) {
      AddedConstraintsAreFrom(to, added.constraints, was.constraints, a);
    } else {
      ColumnFollowUp(was, to, added, from2, a);
    }
  }

  lemma ColumnFollowUp(was: TableDef, to: string, added: Action, from2: string, a: Action)
    requires added.CreateTable? && NoneRefersTo(added.columns, from2)
    requires a in DiffColumns(to, was.columns, added.columns)
    ensures a.AddColumn? ==> NoneRefersTo([a.added], from2)
    ensures a.AddColumn? || a.DeleteColumn? || IsColumnEdit(a)
  {
    DeletesAre(to, was.columns, ByName(added.columns).Keys);
    ModifiesAre(to, added.columns, ByName(was.columns));
    AddsAre(to, added.columns, ByName(was.columns).Keys);
  }

  lemma ReplacementIsQuiet(baseline: seq<TableDef>, actions: seq<Action>, p: Pick, q: Pick, drop: Action, added: Action,
      a: Action)
    requires p.choice.RenameTo? && q.choice.RenameTo? && added in actions && KeysApart(actions, baseline, p, q)
    requires Matches(DropOf(p.source), drop) && Matches(AddOf(p.source, p.choice.target), added)
    requires a in Replacement(baseline, p.source, p.choice.target, added)
    requires !Disturbs(q.source, q.choice.target, drop) && !Disturbs(q.source, q.choice.target, added)
    requires Quiet(q.source, q.choice.target, drop) && Quiet(q.source, q.choice.target, added)
    ensures Quiet(q.source, q.choice.target, a)
  {
    match p.source
    case TableTarget(from) => TableReplacementQuiet(baseline, actions, p, q, added, a);
    case ColumnTarget(t, from) =>
      assert a == RenameColumn(t, from, p.choice.target) || (IsColumnEdit(a) && a.table == t);
  }

  lemma TableReplacementQuiet(baseline: seq<TableDef>, actions: seq<Action>, p: Pick, q: Pick, added: Action, a: Action)
    requires p.choice.RenameTo? && q.choice.RenameTo? && p.source.TableTarget? && added in actions
    requires KeysApart(actions, baseline, p, q)
    requires Matches(AddOf(p.source, p.choice.target), added)
    requires a in Replacement(baseline, p.source, p.choice.target, added)
    requires !Disturbs(q.source, q.choice.target, DeleteTable(p.source.name))
    requires !Disturbs(q.source, q.choice.target, added)
    requires Quiet(q.source, q.choice.target, added)
    ensures Quiet(q.source, q.choice.target, a)
  {
    var from, to := p.source.name, p.choice.target;
    var was := BaselineTable(baseline, from);
    if a != RenameTable(from, to) {
      match q.source
      case TableTarget(from2) =>
        FollowUpIsBystander(was.value, to, added, from2, q.choice.target, a);
      case ColumnTarget(t, _) =>
        DiffOnTable(to, was.value.columns, added.columns);
        ConstraintActionsLocal(to, was.value.constraints, added.constraints);
    }
  }

  /** Applying one choice leaves an independent one apt, at shifted positions. */
  lemma StaysApt(actions: seq<Action>, baseline: seq<TableDef>, p: Pick, q: Pick)
    requires p.choice.RenameTo? && Apt(actions, baseline, p) && Apt(actions, baseline, q)
    requires KeysApart(actions, baseline, p, q)
    requires Rewrite(actions, baseline, p.source, p.choice.target).Ok?
    requires p.source != q.source
    requires (q.choice.RenameTo? ==> !SameAdd(p.source, p.choice.target, q.source, q.choice.target))
    ensures Apt(Rewrite(actions, baseline, p.source, p.choice.target).value, baseline, q)
  {
    if q.choice.RenameTo? {
      var d, c :| AptAt(actions, baseline, p.source, p.choice.target, d, c);
      var e, f :| AptAt(actions, baseline, q.source, q.choice.target, e, f);
      ApartPositions(actions, baseline, p.source, p.choice.target, d, c);
      PairsDiffer(actions, baseline, p, q, d, c, e, f);
      var lo, hi := if d < c then d else c, if d < c then c else d;
      ShiftedApt(actions, baseline, p, q, d, c, e, f, lo, hi);
    }
  }

  lemma ShiftedApt(actions: seq<Action>, baseline: seq<TableDef>, p: Pick, q: Pick, d: int, c: int, e: int, f: int,
      lo: nat, hi: nat)
    requires p.choice.RenameTo? && q.choice.RenameTo? && KeysApart(actions, baseline, p, q)
    requires AptAt(actions, baseline, p.source, p.choice.target, d, c)
    requires AptAt(actions, baseline, q.source, q.choice.target, e, f)
    requires d != e && d != f && c != e && c != f && lo < hi < |actions|
    requires ((lo == d && hi == c) || (lo == c && hi == d))
    ensures
      var middle := Replacement(baseline, p.source, p.choice.target, actions[c]);
      AptAt(Splice(actions, lo, hi, middle), baseline, q.source, q.choice.target,
            Shifted(lo, hi, |middle|, e), Shifted(lo, hi, |middle|, f))
  {
    var middle := Replacement(baseline, p.source, p.choice.target, actions[c]);
    ShiftedApart(actions, baseline, p, q, d, c, e, f, lo, hi, middle);
    var r, m := Splice(actions, lo, hi, middle), |middle|;
    forall k | 0 <= k < |r| && k != Shifted(lo, hi, m, e) && k != Shifted(lo, hi, m, f)
      ensures Quiet(q.source, q.choice.target, r[k])
    {
      if lo <= k < lo + m {
        SpliceMiddle(actions, lo, hi, middle, k);
        ReplacementIsQuiet(baseline, actions, p, q, actions[d], actions[c], r[k]);
      } else {
        var i := SpliceFrom(actions, lo, hi, middle, k);
        SpliceAt(actions, lo, hi, middle, i);
      }
    }
  }

  /** The adds of other choices are still the ones the original plan had. */
  lemma StillApart(actions: seq<Action>, baseline: seq<TableDef>, p: Pick, q: Pick, other: Pick)
    requires p.choice.RenameTo? && q.choice.RenameTo? && Apt(actions, baseline, p) && Apt(actions, baseline, q)
    requires Rewrite(actions, baseline, p.source, p.choice.target).Ok? && KeysApart(actions, baseline, q, other)
    requires p.source != q.source && !SameAdd(p.source, p.choice.target, q.source, q.choice.target)
    ensures KeysApart(Rewrite(actions, baseline, p.source, p.choice.target).value, baseline, q, other)
  {
    var d, c :| AptAt(actions, baseline, p.source, p.choice.target, d, c);
    var e, f :| AptAt(actions, baseline, q.source, q.choice.target, e, f);
    ApartPositions(actions, baseline, p.source, p.choice.target, d, c);
    PairsDiffer(actions, baseline, p, q, d, c, e, f);
    var lo, hi := if d < c then d else c, if d < c then c else d;
    var middle := Replacement(baseline, p.source, p.choice.target, actions[c]);
    var r := Splice(actions, lo, hi, middle);
    forall a | a in r && Matches(AddOf(q.source, q.choice.target), a) ensures a in actions {
      if a in middle {
        ReplacementSpares(baseline, p.source, p.choice.target, actions[d], actions[c], q.source, q.choice.target, a);
        MatchDisturbs(q.source, q.choice.target, a);
      } else {
        SpliceAddsMiddle(actions, lo, hi, middle, a);
      }
    }
  }

  lemma SpliceAddsMiddle(actions: seq<Action>, lo: nat, hi: nat, middle: seq<Action>, a: Action)
    requires lo < hi < |actions| && a in Splice(actions, lo, hi, middle) && a !in middle
    ensures a in actions
  {
  }

  // ---------------------------------------------------------------- all choices

  ghost predicate AllApt(actions: seq<Action>, baseline: seq<TableDef>, picks: seq<Pick>) {
    && (forall i :: 0 <= i < |picks| ==> Apt(actions, baseline, picks[i]))
    && (forall i, j :: 0 <= i < |picks| && 0 <= j < |picks| && i != j ==>
      KeysApart(actions, baseline, picks[i], picks[j]))
  }

  lemma RestApt(actions: seq<Action>, baseline: seq<TableDef>, picks: seq<Pick>)
    requires picks != [] && AllApt(actions, baseline, picks) && Independent(picks) && picks[0].choice.RenameTo?
    requires Rewrite(actions, baseline, picks[0].source, picks[0].choice.target).Ok?
    ensures AllApt(Rewrite(actions, baseline, picks[0].source, picks[0].choice.target).value, baseline, picks[1..])
  {
    var p, rest, next := picks[0], picks[1..],
      Rewrite(actions, baseline, picks[0].source, picks[0].choice.target).value;
    forall i | 0 <= i < |rest| ensures Apt(next, baseline, rest[i]) {
      StaysApt(actions, baseline, p, picks[i + 1]);
    }
    forall i, j | 0 <= i < |rest| && 0 <= j < |rest| && i != j ensures KeysApart(next, baseline, rest[i], rest[j]) {
      if rest[i].choice.RenameTo? {
        StillApart(actions, baseline, p, picks[i + 1], picks[j + 1]);
      }
    }
  }

  /** Choices that are independent and apt, applied one after another, leave a plan that replays and ends
      with the original's column view, although the plan replaces constraints. */
  lemma {:induction false} PicksReplay(actions: seq<Action>, baseline: seq<TableDef>, picks: seq<Pick>)
    requires CleanReplay(baseline, actions) && Settled(baseline) && Independent(picks)
    requires AllApt(actions, baseline, picks)
    ensures
      var r := ApplyPicks(actions, baseline, picks);
      && r.Ok? && Replay(baseline, actions).Ok? && Replay(baseline, r.value).Ok?
      && ViewSchema(Replay(baseline, r.value).value) == ViewSchema(Replay(baseline, actions).value)
    decreases |picks|
  {
    if picks == [] {
      CleanReplayView(baseline, actions);
    } else {
      var p, rest := picks[0], picks[1..];
      ChoiceReplays(actions, baseline, p);
      var next := ApplyChoice(actions, baseline, p.source, p.choice).value;
      if p.choice.RenameTo? {
        RestApt(actions, baseline, picks);
      }
      assert forall i :: 0 <= i < |rest| ==> rest[i] == picks[i + 1];
      PicksReplay(next, baseline, rest);
    }
  }
}
