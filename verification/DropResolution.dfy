/** Turning a drop and a matching add of one plan into a rename: discovery of the drops, the
    in-place rewrite of the action list, and success of whole sequences of rewrites. */
module DropResolution {
  import opened Common
  import opened Schema
  import opened ColumnView
  import opened TableDiff
  import O = Ordering

  datatype DropTarget =
    | ColumnTarget(table: string, column: string)
    | TableTarget(name: string)

  datatype Match = Exact | SameType | Different

  datatype Candidate = Candidate(targetName: string, quality: Match)

  datatype Resolution = Resolution(actionIndex: nat, target: DropTarget, candidates: seq<Candidate>)

  datatype Choice = Drop | RenameTo(target: string)

  datatype RewriteError = DropActionMissing(source: DropTarget)
    | TargetActionMissing(source: DropTarget, target: string)

  /** What `position` searches the action list for. */
  datatype Key =
    | DropOf(source: DropTarget)
    | AddOf(source: DropTarget, target: string)

  predicate Matches(k: Key, a: Action) {
    match k
    case DropOf(ColumnTarget(t, c)) => a.DeleteColumn? && a.table == t && a.column == c
    case DropOf(TableTarget(t)) => a.DeleteTable? && a.table == t
    case AddOf(ColumnTarget(t, _), c) => a.AddColumn? && a.table == t && a.added.name == c
    case AddOf(TableTarget(_), t) => a.CreateTable? && a.table == t
  }

  function Position(actions: seq<Action>, k: Key): (i: nat)
    ensures i <= |actions|
    ensures i < |actions| ==> Matches(k, actions[i])
    ensures forall j :: 0 <= j < i ==> !Matches(k, actions[j])
  {
    if actions == [] || Matches(k, actions[0]) then 0 else 1 + Position(actions[1..], k)
  }

  function BaselineTable(baseline: seq<TableDef>, name: string): Option<TableDef> {
    var i := FindTable(baseline, name);
    if i < |baseline| then Some(baseline[i]) else None
  }

  function BaselineColumn(baseline: seq<TableDef>, table: string, column: string): Option<ColumnDef> {
    match BaselineTable(baseline, table)
    case None => None
    case Some(t) =>
      var i := FindColumn(t.columns, column);
      if i < |t.columns| then Some(t.columns[i]) else None
  }

  // ---------------------------------------------------------------- discovery

  function GradeColumn(dropped: Option<ColumnDef>, added: ColumnDef): Match {
    match dropped
    case None => Different
    case Some(d) =>
      if d.ty != added.ty then Different
      else if d.nullable == added.nullable && SameOptDefault(d.default, added.default) then Exact
      else SameType
  }

  function GradeTable(dropped: Option<TableDef>, added: seq<ColumnDef>): Match {
    var names := if dropped.Some? then ColNames(dropped.value.columns) else {};
    if names == ColNames(added) then Exact else Different
  }

  function CandidatesIn(actions: seq<Action>, baseline: seq<TableDef>, source: DropTarget): seq<Candidate> {
    if actions == [] then [] else
    var a, rest := actions[0], CandidatesIn(actions[1..], baseline, source);
    match source
    case ColumnTarget(t, c) =>
      if a.AddColumn? && a.table == t
      then [Candidate(a.added.name, GradeColumn(BaselineColumn(baseline, t, c), a.added))] + rest else rest
    case TableTarget(t) =>
      if a.CreateTable?
      then [Candidate(a.table, GradeTable(BaselineTable(baseline, t), a.columns))] + rest else rest
  }

  function Rank(m: Match): nat {
    match m
    case Exact => 0
    case SameType => 1
    case Different => 2
  }

  predicate CandidateBefore(a: Candidate, b: Candidate) {
    Rank(a.quality) < Rank(b.quality) || (a.quality == b.quality && O.Less(a.targetName, b.targetName))
  }

  /** The candidates as the prompt lists them. */
  function Candidates(actions: seq<Action>, baseline: seq<TableDef>, source: DropTarget): seq<Candidate> {
    O.SortStable(CandidateBefore, CandidatesIn(actions, baseline, source))
  }

  /** Closest match first, then by name; every add is listed and nothing else. */
  lemma CandidatesSorted(actions: seq<Action>, baseline: seq<TableDef>, source: DropTarget)
    ensures O.InOrder(CandidateBefore, Candidates(actions, baseline, source))
    ensures multiset(Candidates(actions, baseline, source)) == multiset(CandidatesIn(actions, baseline, source))
    ensures forall c :: c in Candidates(actions, baseline, source) <==> c in CandidatesIn(actions, baseline, source)
  {
    forall a: Candidate, b: Candidate, c: Candidate | !CandidateBefore(b, a) && !CandidateBefore(c, b)
      ensures !CandidateBefore(c, a)
    {
      if a.quality == b.quality == c.quality {
        O.NotLessTransitive(a.targetName, b.targetName, c.targetName);
      }
    }
    forall a: Candidate, b: Candidate | CandidateBefore(a, b) ensures !CandidateBefore(b, a) {
      if a.quality == b.quality {
        O.NotLessBothWays(a.targetName, b.targetName);
      }
    }
    var found := CandidatesIn(actions, baseline, source);
    O.SortStableFacts(CandidateBefore, found);
    assert forall c :: c in found <==> c in multiset(found);
    assert forall c :: c in Candidates(actions, baseline, source) <==>
      c in multiset(Candidates(actions, baseline, source));
  }

  predicate IsDrop(a: Action) {
    a.DeleteColumn? || a.DeleteTable?
  }

  function SourceOf(a: Action): (t: DropTarget)
    requires IsDrop(a)
    ensures Matches(DropOf(t), a)
  {
    if a.DeleteColumn? then ColumnTarget(a.table, a.column) else TableTarget(a.table)
  }

  /** Every drop gets one resolution, in plan order, offering every add of the same kind (and, for a
      column, the same table). */
  method FindDropResolutions(actions: seq<Action>, baseline: seq<TableDef>) returns (found: seq<Resolution>)
    ensures forall r :: r in found ==>
              && r.actionIndex < |actions| && IsDrop(actions[r.actionIndex])
              && r.target == SourceOf(actions[r.actionIndex])
              && r.candidates == Candidates(actions, baseline, r.target)
    ensures forall i :: 0 <= i < |actions| && IsDrop(actions[i]) ==> exists k ::
      0 <= k < |found| && found[k].actionIndex == i
    ensures forall j, k :: 0 <= j < k < |found| ==> found[j].actionIndex < found[k].actionIndex
  {
    found := [];
    for idx := 0 to |actions|
      invariant FoundUpTo(actions, baseline, found, idx)
    {
      if IsDrop(actions[idx]) {
        var source := SourceOf(actions[idx]);
        FoundNext(actions, baseline, found, idx);
        found := found + [Resolution(idx, source, Candidates(actions, baseline, source))];
      }
    }
    assert forall r :: r in found ==> Describes(actions, baseline, r, |actions|);
  }

  ghost predicate Describes(actions: seq<Action>, baseline: seq<TableDef>, r: Resolution, n: nat)
    requires n <= |actions|
  {
    && r.actionIndex < n && IsDrop(actions[r.actionIndex]) && r.target == SourceOf(actions[r.actionIndex])
    && r.candidates == Candidates(actions, baseline, r.target)
  }

  /** One resolution for each drop among the first `n` actions, in plan order. */
  ghost predicate FoundUpTo(actions: seq<Action>, baseline: seq<TableDef>, found: seq<Resolution>, n: nat)
    requires n <= |actions|
  {
    && (forall k :: 0 <= k < |found| ==> Describes(actions, baseline, found[k], n))
    && (forall i :: 0 <= i < n && IsDrop(actions[i]) ==> exists k :: 0 <= k < |found| && found[k].actionIndex == i)
    && (forall j, k :: 0 <= j < k < |found| ==> found[j].actionIndex < found[k].actionIndex)
  }

  lemma FoundNext(actions: seq<Action>, baseline: seq<TableDef>, found: seq<Resolution>, n: nat)
    requires n < |actions| && IsDrop(actions[n]) && FoundUpTo(actions, baseline, found, n)
    ensures FoundUpTo(actions, baseline,
      found + [Resolution(n, SourceOf(actions[n]), Candidates(actions, baseline, SourceOf(actions[n])))], n + 1)
  {
    var more := found + [Resolution(n, SourceOf(actions[n]), Candidates(actions, baseline, SourceOf(actions[n])))];
    forall k | 0 <= k < |more| ensures Describes(actions, baseline, more[k], n + 1) {
      if k < |found| {
        assert more[k] == found[k];
      }
    }
    forall i | 0 <= i < n + 1 && IsDrop(actions[i]) ensures exists k :: 0 <= k < |more| && more[k].actionIndex == i {
      if i < n {
        var k :| 0 <= k < |found| && found[k].actionIndex == i;
        assert more[k].actionIndex == i;
      } else {
        assert more[|found|].actionIndex == i;
      }
    }
  }

  lemma {:induction false} CandidateHasAdd(actions: seq<Action>, baseline: seq<TableDef>, source: DropTarget,
      c: Candidate)
    requires c in CandidatesIn(actions, baseline, source)
    ensures Position(actions, AddOf(source, c.targetName)) < |actions|
  {
    if !Matches(AddOf(source, c.targetName), actions[0]) {
      CandidateHasAdd(actions[1..], baseline, source, c);
    }
  }

  // ---------------------------------------------------------------- rewriting

  /** The rename and its follow-ups, in the order they enter the plan. */
  function Replacement(baseline: seq<TableDef>, source: DropTarget, target: string, added: Action): (r: seq<Action>)
    requires Matches(AddOf(source, target), added)
    ensures NoReplace(r)
  {
    match source
    case ColumnTarget(t, c) =>
      var before := BaselineColumn(baseline, t, c);
      [RenameColumn(t, c, target)] + if before.Some? then EditActions(t, before.value, added.added) else []
    case TableTarget(t) =>
      var before := BaselineTable(baseline, t);
      ReplacementNoReplace(baseline, t, target, added.columns, added.constraints);
      [RenameTable(t, target)] +
      if before.Some? then
        DiffColumns(target, before.value.columns, added.columns) +
        DiffConstraints(target, before.value.constraints, added.constraints)
      else []
  }

  lemma ReplacementNoReplace(baseline: seq<TableDef>, from: string, to: string, cols: seq<ColumnDef>,
      cs: seq<TableConstraint>)
    ensures var before := BaselineTable(baseline, from);
      before.Some? ==>
        && NoReplace(DiffColumns(to, before.value.columns, cols))
        && NoReplace(DiffConstraints(to, before.value.constraints, cs))
  {
    var before := BaselineTable(baseline, from);
    if before.Some? {
      ConstraintActionsLocal(to, before.value.constraints, cs);
      DeletesAre(to, before.value.columns, ByName(cols).Keys);
      AddsAre(to, cols, ByName(before.value.columns).Keys);
      ModifiesAre(to, cols, ByName(before.value.columns));
    }
  }

  /** Drop positions `lo` and `hi`, put `middle` where `lo` was, keep everything else in order. */
  function Splice(actions: seq<Action>, lo: nat, hi: nat, middle: seq<Action>): seq<Action>
    requires lo < hi < |actions|
  {
    actions[..lo] + middle + actions[lo + 1..hi] + actions[hi + 1..]
  }

  function Rewrite(actions: seq<Action>, baseline: seq<TableDef>, source: DropTarget,
      target: string): Result<seq<Action>, RewriteError> {
    var d, a := Position(actions, DropOf(source)), Position(actions, AddOf(source, target));
    if d == |actions| then Err(DropActionMissing(source))
    else if a == |actions| then Err(TargetActionMissing(source, target))
    else
      assert d != a;
      Ok(Splice(actions, if d < a then d else a, if d < a then a else d,
        Replacement(baseline, source, target, actions[a])))
  }

  function ApplyChoice(actions: seq<Action>, baseline: seq<TableDef>, source: DropTarget,
      choice: Choice): Result<seq<Action>, RewriteError> {
    match choice
    case Drop => Ok(actions)
    case RenameTo(target) => Rewrite(actions, baseline, source, target)
  }

  datatype Pick = Pick(source: DropTarget, choice: Choice)

  function ApplyPicks(actions: seq<Action>, baseline: seq<TableDef>,
      picks: seq<Pick>): Result<seq<Action>, RewriteError>
    decreases |picks|
  {
    if picks == [] then Ok(actions) else
    match ApplyChoice(actions, baseline, picks[0].source, picks[0].choice)
    case Err(e) => Err(e)
    case Ok(rest) => ApplyPicks(rest, baseline, picks[1..])
  }

  lemma {:induction false} ApplyPicksSnoc(actions: seq<Action>, baseline: seq<TableDef>, picks: seq<Pick>, p: Pick)
    ensures ApplyPicks(actions, baseline, picks + [p]) ==
            match ApplyPicks(actions, baseline, picks)
            case Err(e) => Err(e)
            case Ok(rest) => ApplyChoice(rest, baseline, p.source, p.choice)
    decreases |picks|
  {
    if picks == [] {
      assert picks + [p] == [p];
      assert [p][1..] == [];
    } else {
      assert (picks + [p])[1..] == picks[1..] + [p];
      var r := ApplyChoice(actions, baseline, picks[0].source, picks[0].choice);
      if r.Ok? {
        ApplyPicksSnoc(r.value, baseline, picks[1..], p);
      }
    }
  }

  lemma {:induction false} ApplyPicksError(actions: seq<Action>, baseline: seq<TableDef>, picks: seq<Pick>,
      more: seq<Pick>)
    requires ApplyPicks(actions, baseline, picks).Err?
    ensures ApplyPicks(actions, baseline, picks + more) == ApplyPicks(actions, baseline, picks)
    decreases |picks|
  {
    assert (picks + more)[1..] == picks[1..] + more;
    var r := ApplyChoice(actions, baseline, picks[0].source, picks[0].choice);
    if r.Ok? {
      ApplyPicksError(r.value, baseline, picks[1..], more);
    }
  }

  /** A plan whose action list is edited in place. */
  class MigrationPlan {
    var version: nat
    var actions: seq<Action>

    constructor (version: nat, actions: seq<Action>)
      ensures this.version == version && this.actions == actions
    {
      this.version := version;
      this.actions := actions;
    }

    method Remove(i: nat)
      requires i < |actions|
      modifies this`actions
      ensures actions == old(actions)[..i] + old(actions)[i + 1..]
    {
      actions := actions[..i] + actions[i + 1..];
    }

    method Insert(i: nat, a: Action)
      requires i <= |actions|
      modifies this`actions
      ensures actions == old(actions)[..i] + [a] + old(actions)[i..]
    {
      actions := actions[..i] + [a] + actions[i..];
    }

    /** Remove the later action, then the earlier, then insert the replacement one by one. */
    method ReplacePair(lo: nat, hi: nat, middle: seq<Action>)
      requires lo < hi < |actions|
      modifies this`actions
      ensures actions == Splice(old(actions), lo, hi, middle)
    {
      ghost var before := actions;
      Remove(hi);
      Remove(lo);
      ghost var rest := before[lo + 1..hi] + before[hi + 1..];
      assert actions == before[..lo] + rest;
      for offset := 0 to |middle|
        invariant actions == before[..lo] + middle[..offset] + rest
      {
        Insert(lo + offset, middle[offset]);
        assert middle[..offset + 1] == middle[..offset] + [middle[offset]];
      }
      assert middle[..|middle|] == middle;
      assert actions == Splice(before, lo, hi, middle);
    }

    /** `apply_column_rename` and `apply_table_rename`. */
    method ApplyRename(baseline: seq<TableDef>, source: DropTarget, target: string)
      returns (r: Result<(), RewriteError>)
      modifies this`actions
      ensures match Rewrite(old(actions), baseline, source, target)
              case Ok(rewritten) => r == Ok(()) && actions == rewritten
              case Err(e) => r == Err(e) && actions == old(actions)
    {
      var d := Position(actions, DropOf(source));
      if d == |actions| {
        return Err(DropActionMissing(source));
      }
      var a := Position(actions, AddOf(source, target));
      if a == |actions| {
        return Err(TargetActionMissing(source, target));
      }
      assert d != a;
      var middle := Replacement(baseline, source, target, actions[a]);
      ReplacePair(if d < a then d else a, if d < a then a else d, middle);
      return Ok(());
    }

    /** The loop of the `revision` command over the user's choices. */
    method ApplyChosen(baseline: seq<TableDef>, picks: seq<Pick>) returns (r: Result<(), RewriteError>)
      modifies this`actions
      ensures match ApplyPicks(old(actions), baseline, picks)
              case Ok(rewritten) => r == Ok(()) && actions == rewritten
              case Err(e) => r == Err(e)
    {
      ghost var before := actions;
      for i := 0 to |picks|
        invariant ApplyPicks(before, baseline, picks[..i]) == Ok(actions)
      {
        ApplyPicksSnoc(before, baseline, picks[..i], picks[i]);
        assert picks[..i] + [picks[i]] == picks[..i + 1];
        if picks[i].choice.RenameTo? {
          var step := ApplyRename(baseline, picks[i].source, picks[i].choice.target);
          if step.Err? {
            ApplyPicksError(before, baseline, picks[..i + 1], picks[i + 1..]);
            assert picks[..i + 1] + picks[i + 1..] == picks;
            return step;
          }
        }
      }
      assert picks[..|picks|] == picks;
      return Ok(());
    }
  }

  // ---------------------------------------------------------------- whole sequences of rewrites

  ghost predicate Present(actions: seq<Action>, k: Key) {
    exists i :: 0 <= i < |actions| && Matches(k, actions[i])
  }

  lemma PresentPosition(actions: seq<Action>, k: Key)
    ensures Present(actions, k) <==> Position(actions, k) < |actions|
  {
  }

  /** The two positions in the order they come. */
  predicate Places(lo: nat, hi: nat, d: nat, a: nat) {
    lo < hi && ((lo == d && hi == a) || (lo == a && hi == d))
  }

  lemma SpliceMultiset(actions: seq<Action>, lo: nat, hi: nat, middle: seq<Action>)
    requires lo < hi < |actions|
    ensures multiset(Splice(actions, lo, hi, middle)) + multiset{actions[lo], actions[hi]} == multiset(actions)
      + multiset(middle)
  {
    var tail := actions[lo + 1..];
    CountedAround(actions, lo);
    CountedAround(tail, hi - lo - 1);
    assert tail[..hi - lo - 1] == actions[lo + 1..hi] && tail[hi - lo..] == actions[hi + 1..];
  }

  lemma CountedAround(actions: seq<Action>, k: nat)
    requires k < |actions|
    ensures multiset(actions) == multiset(actions[..k]) + multiset{actions[k]} + multiset(actions[k + 1..])
  {
    assert actions == actions[..k] + [actions[k]] + actions[k + 1..];
  }

  lemma SpliceKeeps(actions: seq<Action>, lo: nat, hi: nat, middle: seq<Action>, i: nat)
    requires lo < hi < |actions| && i < |actions| && i != lo && i != hi
    ensures actions[i] in Splice(actions, lo, hi, middle)
  {
    var r := Splice(actions, lo, hi, middle);
    if i < lo {
      assert r[i] == actions[i];
    } else if i < hi {
      assert r[lo + |middle| + (i - lo - 1)] == actions[i];
    } else {
      assert r[lo + |middle| + (hi - lo - 1) + (i - hi - 1)] == actions[i];
    }
  }

  lemma RewriteIsSplice(actions: seq<Action>, baseline: seq<TableDef>, source: DropTarget, target: string)
    returns (lo: nat, hi: nat, middle: seq<Action>)
    requires Rewrite(actions, baseline, source, target).Ok?
    ensures lo < hi < |actions|
    ensures Places(lo, hi, Position(actions, DropOf(source)), Position(actions, AddOf(source, target)))
    ensures middle == Replacement(baseline, source, target, actions[Position(actions, AddOf(source, target))])
    ensures Rewrite(actions, baseline, source, target).value == Splice(actions, lo, hi, middle)
  {
    var d, a := Position(actions, DropOf(source)), Position(actions, AddOf(source, target));
    lo, hi := if d < a then d else a, if d < a then a else d;
    middle := Replacement(baseline, source, target, actions[a]);
  }

  /** Where an action outside the pair stands after the splice. */
  function Shifted(lo: nat, hi: nat, m: nat, i: nat): int {
    if i < lo then i else if i < hi then i - 1 + m else i - 2 + m
  }

  lemma SpliceAt(actions: seq<Action>, lo: nat, hi: nat, middle: seq<Action>, i: nat)
    requires lo < hi < |actions| && i < |actions| && i != lo && i != hi
    ensures var k := Shifted(lo, hi, |middle|, i);
      0 <= k < |Splice(actions, lo, hi, middle)| && Splice(actions, lo, hi, middle)[k] == actions[i]
  {
  }

  function RenameOf(source: DropTarget, target: string): Action {
    match source
    case ColumnTarget(t, c) => RenameColumn(t, c, target)
    case TableTarget(t) => RenameTable(t, target)
  }

  /** After a rewrite the rename stands where the earlier of the pair stood, and any two other actions
      are still there, in the order they had. */
  lemma RewriteKeepsOrder(actions: seq<Action>, baseline: seq<TableDef>, source: DropTarget, target: string, i: nat,
      j: nat)
    returns (k: nat, l: nat)
    requires Rewrite(actions, baseline, source, target).Ok? && i < j < |actions|
    requires i != Position(actions, DropOf(source)) && i != Position(actions, AddOf(source, target))
    requires j != Position(actions, DropOf(source)) && j != Position(actions, AddOf(source, target))
    ensures
      var r := Rewrite(actions, baseline, source, target).value;
      && k < l < |r| && r[k] == actions[i] && r[l] == actions[j]
      && var d, a := Position(actions, DropOf(source)), Position(actions, AddOf(source, target));
         var lo := if d < a then d else a;
         lo < |r| && r[lo] == RenameOf(source, target) && (k < lo <==> i < lo)
  {
    var lo, hi, middle := RewriteIsSplice(actions, baseline, source, target);
    var d, a := Position(actions, DropOf(source)), Position(actions, AddOf(source, target));
    k, l := SpliceKeepsOrder(actions, lo, hi, middle, i, j);
    RenameComesFirst(baseline, source, target, actions[a]);
  }

  lemma RenameComesFirst(baseline: seq<TableDef>, source: DropTarget, target: string, added: Action)
    requires Matches(AddOf(source, target), added)
    ensures var r := Replacement(baseline, source, target, added); r != [] && r[0] == RenameOf(source, target)
  {
  }

  lemma SpliceKeepsOrder(actions: seq<Action>, lo: nat, hi: nat, middle: seq<Action>, i: nat, j: nat)
    returns (k: nat, l: nat)
    requires lo < hi < |actions| && i < j < |actions| && i != lo && i != hi && j != lo && j != hi
    ensures var r := Splice(actions, lo, hi, middle);
      k < l < |r| && r[k] == actions[i] && r[l] == actions[j]
        && (middle != [] ==> r[lo] == middle[0] && (k < lo <==> i < lo))
  {
    SpliceAt(actions, lo, hi, middle, i);
    SpliceAt(actions, lo, hi, middle, j);
    k, l := Shifted(lo, hi, |middle|, i), Shifted(lo, hi, |middle|, j);
    assert middle != [] ==> Splice(actions, lo, hi, middle)[lo] == middle[0];
  }

  /** No action is lost or duplicated by a rewrite. */
  lemma RewriteConserves(actions: seq<Action>, baseline: seq<TableDef>, source: DropTarget, target: string)
    requires Rewrite(actions, baseline, source, target).Ok?
    ensures
      var d, a := Position(actions, DropOf(source)), Position(actions, AddOf(source, target));
      && d < |actions| && a < |actions|
      && multiset(Rewrite(actions, baseline, source, target).value) + multiset{actions[d], actions[a]}
         == multiset(actions) + multiset(Replacement(baseline, source, target, actions[a]))
  {
    var d, a := Position(actions, DropOf(source)), Position(actions, AddOf(source, target));
    var middle := Replacement(baseline, source, target, actions[a]);
    assert d != a;
    if d < a {
      SpliceMultiset(actions, d, a, middle);
    } else {
      SpliceMultiset(actions, a, d, middle);
      EitherOrder(actions[d], actions[a]);
    }
  }

  lemma EitherOrder(x: Action, y: Action)
    ensures multiset{x, y} == multiset{y, x}
  {
  }

  /** A rewrite keeps every action that matches neither of its own two keys. */
  lemma RewriteKeeps(actions: seq<Action>, baseline: seq<TableDef>, source: DropTarget, target: string, k: Key)
    requires Rewrite(actions, baseline, source, target).Ok?
    requires Present(actions, k)
    requires forall a :: Matches(k, a) ==> !Matches(DropOf(source), a) && !Matches(AddOf(source, target), a)
    ensures Present(Rewrite(actions, baseline, source, target).value, k)
  {
    var i :| 0 <= i < |actions| && Matches(k, actions[i]);
    var lo, hi, middle := RewriteIsSplice(actions, baseline, source, target);
    assert i != Position(actions, DropOf(source)) && i != Position(actions, AddOf(source, target));
    assert i != lo && i != hi;
    SpliceKeeps(actions, lo, hi, middle, i);
  }

  ghost predicate SameAdd(p: DropTarget, s: string, q: DropTarget, t: string) {
    && s == t
    && match (p, q)
       case (ColumnTarget(x, _), ColumnTarget(y, _)) => x == y
       case (TableTarget(_), TableTarget(_)) => true
       case (_, _) => false
  }

  /** The plan holds every drop picked and every add chosen for it. */
  ghost predicate Offered(actions: seq<Action>, picks: seq<Pick>) {
    forall i :: 0 <= i < |picks| ==>
      && Present(actions, DropOf(picks[i].source))
      && (picks[i].choice.RenameTo? ==> Present(actions, AddOf(picks[i].source, picks[i].choice.target)))
  }

  /** No two picks drop the same thing and no two renames take the same new name. */
  ghost predicate Independent(picks: seq<Pick>) {
    && (forall i, j :: 0 <= i < j < |picks| ==> picks[i].source != picks[j].source)
    && (forall i, j :: 0 <= i < j < |picks| && picks[i].choice.RenameTo? && picks[j].choice.RenameTo?
          ==> !SameAdd(picks[i].source, picks[i].choice.target, picks[j].source, picks[j].choice.target))
  }

  /** Independent choices found in one plan apply one after another without failing, whatever the
      order and although every rewrite moves the actions behind it. */
  lemma {:induction false} PicksApply(actions: seq<Action>, baseline: seq<TableDef>, picks: seq<Pick>)
    requires Offered(actions, picks) && Independent(picks)
    ensures ApplyPicks(actions, baseline, picks).Ok?
    decreases |picks|
  {
    if picks != [] {
      var p, rest := picks[0], picks[1..];
      assert Independent(rest) by {
        assert forall i :: 0 <= i < |rest| ==> rest[i] == picks[i + 1];
      }
      PresentPosition(actions, DropOf(p.source));
      if p.choice.RenameTo? {
        PresentPosition(actions, AddOf(p.source, p.choice.target));
      }
      var r := ApplyChoice(actions, baseline, p.source, p.choice).value;
      forall i | 0 <= i < |rest|
        ensures Present(r, DropOf(rest[i].source))
        ensures rest[i].choice.RenameTo? ==> Present(r, AddOf(rest[i].source, rest[i].choice.target))
      {
        var q := picks[i + 1];
        if p.choice.RenameTo? {
          RewriteKeeps(actions, baseline, p.source, p.choice.target, DropOf(q.source));
          if q.choice.RenameTo? {
            RewriteKeeps(actions, baseline, p.source, p.choice.target, AddOf(q.source, q.choice.target));
          }
        }
      }
      PicksApply(r, baseline, rest);
    }
  }

  /** Picks drawn from the discovered resolutions and their own candidates are always offered. */
  lemma FoundPicksOffered(actions: seq<Action>, baseline: seq<TableDef>, picks: seq<Pick>)
    requires forall i :: 0 <= i < |picks| ==>
               && Present(actions, DropOf(picks[i].source))
               && (picks[i].choice.RenameTo? ==>
                     exists c :: c in Candidates(actions, baseline, picks[i].source)
                       && c.targetName == picks[i].choice.target)
    ensures Offered(actions, picks)
  {
    forall i | 0 <= i < |picks| && picks[i].choice.RenameTo?
      ensures Present(actions, AddOf(picks[i].source, picks[i].choice.target))
    {
      var c :| c in Candidates(actions, baseline, picks[i].source) && c.targetName == picks[i].choice.target;
      CandidatesSorted(actions, baseline, picks[i].source);
      CandidateHasAdd(actions, baseline, picks[i].source, c);
      PresentPosition(actions, AddOf(picks[i].source, c.targetName));
    }
  }

  /** The grade of a column candidate says what its rename has to follow up with: nothing, property
      changes without a type change, or a type change. */
  lemma GradeForetellsFollowUps(t: string, was: ColumnDef, added: ColumnDef)
    ensures
      var edits := EditActions(t, was, added);
      match GradeColumn(Some(was), added)
      case Exact => edits == []
      case SameType => edits != [] && forall i :: 0 <= i < |edits| ==> !edits[i].ModifyColumnType?
      case Different => edits != [] && edits[0] == ModifyColumnType(t, added.name, added.ty)
  {
  }

  /** A table candidate is exact if and only if its rename neither drops nor adds a column. */
  lemma ExactTableKeepsItsColumns(to: string, was: TableDef, cols: seq<ColumnDef>)
    requires DistinctNames(was.columns) && DistinctNames(cols)
    ensures GradeTable(Some(was), cols) == Exact
       <==> forall a :: a in DiffColumns(to, was.columns, cols) ==> !a.DeleteColumn? && !a.AddColumn?
  {
    ByNameFacts(was.columns);
    ByNameFacts(cols);
    var dels, adds := DeleteActions(to, was.columns, ColNames(cols)), AddActions(to, cols, ColNames(was.columns));
    DeletesEmpty(to, was.columns, ColNames(cols));
    AddsEmpty(to, cols, ColNames(was.columns));
    DeletesAre(to, was.columns, ColNames(cols));
    AddsAre(to, cols, ColNames(was.columns));
    ModifiesAre(to, cols, ByName(was.columns));
    NoDropNoAdd(dels, adds, ModifyActions(to, cols, ByName(was.columns)));
  }

  lemma NoDropNoAdd(dels: seq<Action>, adds: seq<Action>, edits: seq<Action>)
    requires forall a :: a in dels ==> a.DeleteColumn?
    requires forall a :: a in adds ==> a.AddColumn?
    requires forall a :: a in edits ==> IsColumnEdit(a)
    ensures dels == [] && adds == [] <==> forall a :: a in dels + adds + edits ==> !a.DeleteColumn? && !a.AddColumn?
  {
    if dels != [] {
      assert dels[0] in dels + adds + edits;
    } else if adds != [] {
      assert adds[0] in dels + adds + edits;
    }
  }
}
