/** `normalize`, as the loops of the source run it, and what clearing inline fields is for: a removed
    constraint does not come back when the table is normalized again. */
module Normalize {
  import opened Common
  import opened Schema
  import opened ColumnView
  import opened References
  import opened Prefix

  // ---------------------------------------------------------------- the loops

  lemma KeyColumnsSnoc(cols: seq<ColumnDef>, i: nat)
    requires i < |cols|
    ensures KeyColumns(cols[..i + 1]) == KeyColumns(cols[..i]) + if IsKey(cols[i]) then [cols[i].name] else []
  {
    assert cols[..i + 1] == cols[..i] + [cols[i]];
    KeyColumnsConcat(cols[..i], [cols[i]]);
    assert [cols[i]][1..] == [];
  }

  lemma {:induction false} KeyColumnsConcat(xs: seq<ColumnDef>, ys: seq<ColumnDef>)
    ensures KeyColumns(xs + ys) == KeyColumns(xs) + KeyColumns(ys)
  {
    if xs == [] {
      assert xs + ys == ys;
    } else {
      assert (xs + ys)[1..] == xs[1..] + ys;
      KeyColumnsConcat(xs[1..], ys);
    }
  }

  /** `add_primary_key_constraint`. */
  method AddPrimaryKey(cols: seq<ColumnDef>, cs: seq<TableConstraint>) returns (r: seq<TableConstraint>)
    ensures r == cs + NewPrimaryKey(cols, Plain(cs))
  {
    var columns, auto := [], false;
    for i := 0 to |cols|
      invariant columns == KeyColumns(cols[..i])
      invariant auto <==> exists k :: 0 <= k < i && cols[k].marks.primaryKey == Some(Object(true))
    {
      KeyColumnsSnoc(cols, i);
      match cols[i].marks.primaryKey {
        case None =>
        case Some(OnOff(on)) =>
          if on {
            columns := columns + [cols[i].name];
          }
        case Some(Object(increments)) =>
          columns, auto := columns + [cols[i].name], auto || increments;
      }
    }
    assert cols[..|cols|] == cols;
    PlainHas(cs, (c: TableConstraint) => c.PrimaryKey?);
    if columns == [] || exists i :: 0 <= i < |cs| && cs[i].PrimaryKey? {
      r := cs;
    } else {
      r := cs + [PrimaryKey(columns, if auto then AUTO_INCREMENT_POLICY else KEY_POLICY)];
    }
  }

  /** Looking for a constraint that is not a foreign key may skip the foreign keys. */
  lemma {:induction false} PlainHas(cs: seq<TableConstraint>, wanted: TableConstraint -> bool)
    requires forall c: TableConstraint :: wanted(c) ==> !c.ForeignKey?
    ensures (exists i :: 0 <= i < |cs| && wanted(cs[i])) <==> (exists i :: 0 <= i < |Plain(cs)| && wanted(Plain(cs)[i]))
  {
    if cs != [] {
      PlainHas(cs[1..], wanted);
      if i :| 0 <= i < |cs| && wanted(cs[i]) {
        assert i > 0 ==> cs[1..][i - 1] == cs[i];
        assert i == 0 ==> Plain(cs)[0] == cs[0];
        if i > 0 {
          var k :| 0 <= k < |Plain(cs[1..])| && wanted(Plain(cs[1..])[k]);
          assert Plain(cs)[if cs[0].ForeignKey? then k else k + 1] == Plain(cs[1..])[k];
        }
      }
      if k :| 0 <= k < |Plain(cs)| && wanted(Plain(cs)[k]) {
        if cs[0].ForeignKey? || k > 0 {
          assert Plain(cs[1..])[if cs[0].ForeignKey? then k else k - 1] == Plain(cs)[k];
          var i :| 0 <= i < |cs[1..]| && wanted(cs[1..][i]);
          assert cs[i + 1] == cs[1..][i];
        }
      }
    }
  }

  /** The map and the list that `push_grouped_column` keeps, for the mentions so far. */
  ghost predicate Collected(mentions: seq<(string, string)>, groups: map<string, seq<string>>, order: seq<string>) {
    && order == GroupOrder(mentions)
    && (forall g :: g in groups <==> g in order)
    && (forall g :: g in groups ==> groups[g] == GroupColumns(mentions, g))
  }

  lemma {:induction false} UnmentionedGroup(mentions: seq<(string, string)>, g: string)
    requires g !in GroupOrder(mentions)
    ensures GroupColumns(mentions, g) == []
  {
    if mentions != [] {
      UnmentionedGroup(mentions[..|mentions| - 1], g);
    }
  }

  lemma Pushed(mentions: seq<(string, string)>, groups: map<string, seq<string>>, order: seq<string>, g: string,
      column: string)
    requires Collected(mentions, groups, order)
    ensures Collected(mentions + [(g, column)],
      groups[g := (if g in groups then groups[g] else []) + [column]], if g in groups then order else order + [g])
  {
    var more := mentions + [(g, column)];
    assert more[..|mentions|] == mentions;
    if g !in groups {
      UnmentionedGroup(mentions, g);
    }
  }

  function Tagged(gs: seq<string>, column: string): seq<(string, string)> {
    seq(|gs|, i requires 0 <= i < |gs| => (gs[i], column))
  }

  lemma TaggedNext(before: seq<(string, string)>, gs: seq<string>, column: string, j: nat)
    requires j < |gs|
    ensures before + Tagged(gs[..j + 1], column) == before + Tagged(gs[..j], column) + [(gs[j], column)]
  {
  }

  lemma MentionsNext(kind: GroupKind, cols: seq<ColumnDef>, i: nat)
    requires i < |cols|
    ensures Mentions(kind, cols[..i + 1]) == Mentions(kind, cols[..i]) + Tagged(GroupsOf(kind, cols[i]), cols[i].name)
  {
    assert cols[..i + 1][..i] == cols[..i];
  }

  method PushGroups(gs: seq<string>, column: string, ghost before: seq<(string, string)>,
      groups: map<string, seq<string>>, order: seq<string>)
    returns (pushed: map<string, seq<string>>, listed: seq<string>)
    requires Collected(before, groups, order)
    ensures Collected(before + Tagged(gs, column), pushed, listed)
  {
    pushed, listed := groups, order;
    assert before + Tagged(gs[..0], column) == before;
    for j := 0 to |gs|
      invariant Collected(before + Tagged(gs[..j], column), pushed, listed)
    {
      TaggedNext(before, gs, column, j);
      Pushed(before + Tagged(gs[..j], column), pushed, listed, gs[j], column);
      if gs[j] in pushed {
        pushed := pushed[gs[j] := pushed[gs[j]] + [column]];
      } else {
        pushed, listed := pushed[gs[j] := [] + [column]], listed + [gs[j]];
      }
    }
    assert gs[..|gs|] == gs;
  }

  /** `collect_unique_groups` and `collect_index_groups`. */
  method CollectGroups(kind: GroupKind, cols: seq<ColumnDef>)
    returns (groups: map<string, seq<string>>, order: seq<string>)
    ensures Collected(Mentions(kind, cols), groups, order)
  {
    groups, order := map[], [];
    for i := 0 to |cols|
      invariant Collected(Mentions(kind, cols[..i]), groups, order)
    {
      MentionsNext(kind, cols, i);
      groups, order := PushGroups(GroupsOf(kind, cols[i]), cols[i].name, Mentions(kind, cols[..i]), groups, order);
    }
    assert cols[..|cols|] == cols;
  }

  /** `add_unique_constraints` and `add_index_constraints`. */
  method AddGroups(kind: GroupKind, cols: seq<ColumnDef>, cs: seq<TableConstraint>) returns (r: seq<TableConstraint>)
    ensures r == cs + Grouped(kind, cols, Plain(cs))
  {
    var groups, order := CollectGroups(kind, cols);
    ghost var mentions := Mentions(kind, cols);
    var added: seq<PlainConstraint> := [];
    NoneAdded(Plain(cs), NewGroups(kind, mentions, order, Plain(cs)));
    assert order[0..] == order;
    for k := 0 to |order|
      invariant Grouped(kind, cols, Plain(cs)) == added + NewGroups(kind, mentions, order[k..], Plain(cs) + added)
    {
      var c := GroupConstraint(kind, order[k], groups[order[k]]);
      DecideGroup(kind, mentions, order, k, cs, added, c);
      if !exists i :: 0 <= i < |cs + added| && Resembles(kind, (cs + added)[i], c) {
        added := added + [c];
      }
    }
    assert added + [] == added;
    r := cs + added;
  }

  lemma NoneAdded(cs: seq<PlainConstraint>, rest: seq<PlainConstraint>)
    ensures cs + [] == cs && [] + rest == rest
  {
  }

  lemma DecideGroup(kind: GroupKind, mentions: seq<(string, string)>, order: seq<string>, k: nat,
      cs: seq<TableConstraint>, added: seq<PlainConstraint>, c: PlainConstraint)
    requires k < |order| && c == GroupConstraint(kind, order[k], GroupColumns(mentions, order[k]))
    ensures added + NewGroups(kind, mentions, order[k..], Plain(cs) + added) ==
      if exists i :: 0 <= i < |cs + added| && Resembles(kind, (cs + added)[i], c)
      then added + NewGroups(kind, mentions, order[k + 1..], Plain(cs) + added)
      else added + [c] + NewGroups(kind, mentions, order[k + 1..], Plain(cs) + (added + [c]))
  {
    PlainHas(cs + added, (d: TableConstraint) => Resembles(kind, d, c));
    PlainConcat(cs, added);
    PlainIdentity(added);
    assert order[k..][0] == order[k] && order[k..][1..] == order[k + 1..];
    if !exists i :: 0 <= i < |cs + added| && Resembles(kind, (cs + added)[i], c) {
      NextGroup(kind, mentions, order[k..], Plain(cs), added, c);
    }
  }

  lemma NextGroup(kind: GroupKind, mentions: seq<(string, string)>, order: seq<string>, cs: seq<PlainConstraint>,
      added: seq<PlainConstraint>, c: PlainConstraint)
    requires order != [] && c == GroupConstraint(kind, order[0], GroupColumns(mentions, order[0]))
    requires !exists i :: 0 <= i < |cs + added| && Resembles(kind, (cs + added)[i], c)
    ensures added + NewGroups(kind, mentions, order, cs + added) == added + [c]
      + NewGroups(kind, mentions, order[1..], cs + (added + [c]))
  {
    var before := cs + added;
    var rest := NewGroups(kind, mentions, order[1..], before + [c]);
    assert NewGroups(kind, mentions, order, before) == [c] + rest;
    Regrouped(cs, added, c, rest);
  }

  lemma Regrouped(cs: seq<PlainConstraint>, added: seq<PlainConstraint>, c: PlainConstraint, rest: seq<PlainConstraint>)
    ensures cs + added + [c] == cs + (added + [c]) && added + ([c] + rest) == added + [c] + rest
  {
  }

  /** The four loops in their order: primary key, unique constraints, foreign keys, indexes. */
  method Normalized(cols: seq<ColumnDef>, cs: seq<TableConstraint>) returns (r: seq<TableConstraint>)
    ensures r == Promote(cols, cs)
  {
    r := AddPrimaryKey(cols, cs);
    ghost var key := NewPrimaryKey(cols, Plain(cs));
    PlainConcat(cs, key);
    PlainIdentity(key);
    r := AddGroups(Uniques, cols, r);
    ghost var keyed := cs + NewKeys(cols, Plain(cs));
    assert r == keyed;
    for i := 0 to |cols|
      invariant WithReferences(cols[i..], r) == WithReferences(cols, keyed)
    {
      var c := cols[i];
      assert cols[i..][0] == c && cols[i..][1..] == cols[i + 1..];
      if c.reference.Some? && !HasForeignKey(r, c.name) {
        r := r + [OwnReference(c)];
      }
    }
    r := AddGroups(Indexes, cols, r);
  }

  // ---------------------------------------------------------------- groups and their mentions

  lemma MentionsSnoc(kind: GroupKind, cols: seq<ColumnDef>, c: ColumnDef)
    ensures
      var gs := GroupsOf(kind, c);
      Mentions(kind, cols + [c]) == Mentions(kind, cols) + seq(|gs|, i requires 0 <= i < |gs| => (gs[i], c.name))
  {
    assert (cols + [c])[..|cols|] == cols;
  }

  lemma GroupSnoc(mentions: seq<(string, string)>, x: string, column: string)
    ensures
      var order, more := GroupOrder(mentions), mentions + [(x, column)];
      && GroupOrder(more) == (if x in order then order else order + [x])
      && GroupColumns(more, x) == GroupColumns(mentions, x) + [column]
  {
    assert (mentions + [(x, column)])[..|mentions|] == mentions;
  }

  function Grouping(name: string, group: string): ColumnDef {
    ColumnDef(name, Simple("text"), true, None, None, UNMARKED.(index := Some(Single(group))), None, true)
  }

  function PlainColumn(name: string): ColumnDef {
    ColumnDef(name, Simple("text"), true, None, None, UNMARKED, None, true)
  }

  ghost predicate Mentioned(kind: GroupKind, cols: seq<ColumnDef>, g: string, column: string) {
    exists i :: 0 <= i < |cols| && cols[i].name == column && g in GroupsOf(kind, cols[i])
  }

  lemma {:induction false} MentionedBy(kind: GroupKind, cols: seq<ColumnDef>, g: string, column: string)
    requires (g, column) in Mentions(kind, cols)
    ensures Mentioned(kind, cols, g, column)
  {
    var n := |cols| - 1;
    if (g, column) in Mentions(kind, cols[..n]) {
      MentionedBy(kind, cols[..n], g, column);
      var i :| 0 <= i < n && cols[..n][i].name == column && g in GroupsOf(kind, cols[..n][i]);
      assert cols[i] == cols[..n][i];
    }
  }

  lemma {:induction false} ColumnsMentioned(mentions: seq<(string, string)>, g: string)
    ensures forall column :: column in GroupColumns(mentions, g) ==> (g, column) in mentions
    ensures g in GroupOrder(mentions) ==> GroupColumns(mentions, g) != []
  {
    if mentions != [] {
      ColumnsMentioned(mentions[..|mentions| - 1], g);
    }
  }

  /** A group and its constraint: some column of it mentions the group. */
  lemma GroupHasColumn(kind: GroupKind, cols: seq<ColumnDef>, g: string) returns (column: string)
    requires g in GroupOrder(Mentions(kind, cols))
    ensures var columns := GroupColumns(Mentions(kind, cols), g);
      columns != [] && column == columns[0] && Mentioned(kind, cols, g, column)
  {
    ColumnsMentioned(Mentions(kind, cols), g);
    column := GroupColumns(Mentions(kind, cols), g)[0];
    MentionedBy(kind, cols, g, column);
  }

  /** A group among `order` that makes `c`. */
  ghost predicate Makes(kind: GroupKind, mentions: seq<(string, string)>, order: seq<string>, c: TableConstraint) {
    exists i :: 0 <= i < |order| && GroupConstraint(kind, order[i], GroupColumns(mentions, order[i])) == c
  }

  ghost predicate Has(kind: GroupKind, cs: seq<TableConstraint>, c: TableConstraint) {
    exists i :: 0 <= i < |cs| && Resembles(kind, cs[i], c)
  }

  lemma MakesTail(kind: GroupKind, mentions: seq<(string, string)>, order: seq<string>, c: TableConstraint)
    requires order != []
    ensures Makes(kind, mentions, order, c) <==>
      GroupConstraint(kind, order[0], GroupColumns(mentions, order[0])) == c || Makes(kind, mentions, order[1..], c)
  {
    if Makes(kind, mentions, order, c) {
      var i :| 0 <= i < |order| && GroupConstraint(kind, order[i], GroupColumns(mentions, order[i])) == c;
      assert i > 0 ==> order[1..][i - 1] == order[i];
    }
    if Makes(kind, mentions, order[1..], c) {
      var i :| 0 <= i < |order[1..]| && GroupConstraint(kind, order[1..][i], GroupColumns(mentions, order[1..][i])) ==
        c;
      assert order[i + 1] == order[1..][i];
    }
  }

  lemma HasMore(kind: GroupKind, cs: seq<TableConstraint>, d: TableConstraint, c: TableConstraint)
    ensures Has(kind, cs + [d], c) <==> Has(kind, cs, c) || Resembles(kind, d, c)
  {
    if Has(kind, cs, c) {
      var i :| 0 <= i < |cs| && Resembles(kind, cs[i], c);
      assert (cs + [d])[i] == cs[i];
    }
    if Resembles(kind, d, c) {
      assert (cs + [d])[|cs|] == d;
    }
  }

  lemma {:induction false} OnlyGroups(kind: GroupKind, mentions: seq<(string, string)>, order: seq<string>,
      cs: seq<PlainConstraint>, c: TableConstraint)
    ensures c in NewGroups(kind, mentions, order, cs) ==> Makes(kind, mentions, order, c)
    decreases |order|
  {
    if order != [] {
      var c0 := GroupConstraint(kind, order[0], GroupColumns(mentions, order[0]));
      MakesTail(kind, mentions, order, c);
      OnlyGroups(kind, mentions, order[1..], cs, c);
      OnlyGroups(kind, mentions, order[1..], cs + [c0], c);
    }
  }

  /** An unnamed constraint is added exactly if a group makes it and nothing like it is there. */
  lemma {:induction false} UnnamedAdded(kind: GroupKind, mentions: seq<(string, string)>, order: seq<string>,
      cs: seq<PlainConstraint>, c: TableConstraint)
    requires (c.Unique? || c.Index?) && c.name.None?
    ensures c in NewGroups(kind, mentions, order, cs) <==> Makes(kind, mentions, order, c) && !Has(kind, cs, c)
    decreases |order|
  {
    if order != [] {
      var c0 := GroupConstraint(kind, order[0], GroupColumns(mentions, order[0]));
      MakesTail(kind, mentions, order, c);
      HasMore(kind, cs, c0, c);
      UnnamedAdded(kind, mentions, order[1..], cs, c);
      UnnamedAdded(kind, mentions, order[1..], cs + [c0], c);
      assert Has(kind, cs, c0) <==> exists i :: 0 <= i < |cs| && Resembles(kind, cs[i], c0);
    }
  }

  // ---------------------------------------------------------------- what clearing leaves of the groups

  function KindOf(c: TableConstraint): GroupKind {
    if c.Unique? then Uniques else Indexes
  }

  ghost predicate IsGroup(c: TableConstraint) {
    c.Unique? || c.Index?
  }

  lemma {:induction false} NotInWithout(names: seq<string>, name: string)
    ensures name !in WithoutName(names, name)
  {
    if names != [] {
      NotInWithout(names[1..], name);
    }
  }

  lemma NamedGroupGone(table: string, cols: seq<ColumnDef>, c: TableConstraint, i: nat)
    requires IsGroup(c) && c.name.Some? && i < |cols|
    requires c.name.value in GroupsOf(KindOf(c), ClearInline(table, cols, c)[i])
    ensures AUTO <= c.name.value
  {
    var n, marks := c.name.value, cols[i].marks;
    match if c.Unique? then marks.unique else marks.index
    case Some(Many(gs)) => NotInWithout(gs, n);
    case Some(Switch(_)) =>
      assert GroupsOf(KindOf(c), ClearInline(table, cols, c)[i]) == [] || n == AUTO + cols[i].name;
    case _ =>
  }

  lemma SingleGroupGone(table: string, cols: seq<ColumnDef>, c: TableConstraint, i: nat)
    requires DistinctNames(cols) && IsGroup(c) && c.name.None? && i < |cols| && c.columns == [cols[i].name]
    ensures GroupsOf(KindOf(c), ClearInline(table, cols, c)[i]) == []
  {
    FindColumnAt(cols, i);
  }

  lemma OtherGroupsStay(table: string, cols: seq<ColumnDef>, c: TableConstraint)
    requires IsGroup(c) && c.name.None? && |c.columns| != 1
    ensures Mentions(KindOf(c), ClearInline(table, cols, c)) == Mentions(KindOf(c), cols)
  {
    var r := ClearInline(table, cols, c);
    forall i | 0 <= i < |cols|
      ensures r[i].name == cols[i].name && GroupsOf(KindOf(c), r[i]) == GroupsOf(KindOf(c), cols[i])
    {
      assert c.columns != [cols[i].name];
    }
    SameMentions(KindOf(c), r, cols);
  }

  ghost predicate Composite(cols: seq<ColumnDef>, c: TableConstraint)
    requires IsGroup(c)
  {
    c.name.None? && |c.columns| > 1
      && Makes(KindOf(c), Mentions(KindOf(c), cols), GroupOrder(Mentions(KindOf(c), cols)), c)
  }

  /** After clearing, a group makes the removed constraint again only if it is an unnamed one over several
      columns that spell a generated group name themselves. */
  lemma MakesAgain(table: string, cols: seq<ColumnDef>, c: TableConstraint)
    requires DistinctNames(cols) && IsGroup(c)
    ensures
      var kind, r := KindOf(c), ClearInline(table, cols, c);
      Makes(kind, Mentions(kind, r), GroupOrder(Mentions(kind, r)), c) <==> Composite(cols, c)
  {
    var kind, r := KindOf(c), ClearInline(table, cols, c);
    var mentions := Mentions(kind, r);
    var order := GroupOrder(mentions);
    if c.name.None? && |c.columns| != 1 {
      OtherGroupsStay(table, cols, c);
      if Makes(kind, mentions, order, c) {
        var k :| 0 <= k < |order| && GroupConstraint(kind, order[k], GroupColumns(mentions, order[k])) == c;
        var column := GroupHasColumn(kind, r, order[k]);
      }
    } else {
      forall k | 0 <= k < |order| ensures GroupConstraint(kind, order[k], GroupColumns(mentions, order[k])) != c {
        GroupNotMade(table, cols, c, order[k]);
      }
    }
  }

  lemma GroupNotMade(table: string, cols: seq<ColumnDef>, c: TableConstraint, g: string)
    requires DistinctNames(cols) && IsGroup(c) && (c.name.Some? || |c.columns| == 1)
    requires g in GroupOrder(Mentions(KindOf(c), ClearInline(table, cols, c)))
    ensures GroupConstraint(KindOf(c), g, GroupColumns(Mentions(KindOf(c), ClearInline(table, cols, c)), g)) != c
  {
    var kind, r := KindOf(c), ClearInline(table, cols, c);
    var columns := GroupColumns(Mentions(kind, r), g);
    GroupShape(kind, g, columns, c);
    var column := GroupHasColumn(kind, r, g);
    var i :| 0 <= i < |r| && r[i].name == column && g in GroupsOf(kind, r[i]);
    if c.name == Some(g) {
      NamedGroupGone(table, cols, c, i);
    } else if c.name.None? && c.columns == columns {
      OneName(columns, cols[i].name);
      SingleGroupGone(table, cols, c, i);
    }
  }

  lemma GroupShape(kind: GroupKind, g: string, columns: seq<string>, c: TableConstraint)
    requires IsGroup(c)
    ensures GroupConstraint(kind, g, columns) == c ==>
      c.columns == columns && c.name == if AUTO <= g then None else Some(g)
  {
  }

  lemma OneName(names: seq<string>, name: string)
    requires |names| == 1 && names[0] == name
    ensures names == [name]
  {
  }

  // ---------------------------------------------------------------- keys and references

  lemma {:induction false} KeyColumnIsKey(cols: seq<ColumnDef>, column: string)
    requires column in KeyColumns(cols)
    ensures exists i :: 0 <= i < |cols| && cols[i].name == column && IsKey(cols[i])
  {
    if IsKey(cols[0]) && cols[0].name == column {
    } else {
      KeyColumnIsKey(cols[1..], column);
      var i :| 0 <= i < |cols[1..]| && cols[1..][i].name == column && IsKey(cols[1..][i]);
      assert cols[i + 1] == cols[1..][i];
    }
  }

  lemma KeyGone(table: string, cols: seq<ColumnDef>, c: TableConstraint, cs: seq<PlainConstraint>)
    requires DistinctNames(cols) && c.PrimaryKey?
    ensures c !in NewPrimaryKey(ClearInline(table, cols, c), cs)
  {
    var r := ClearInline(table, cols, c);
    forall i | 0 <= i < |r| && r[i].name in c.columns ensures !IsKey(r[i]) {
      FindColumnAt(cols, i);
    }
    if c.columns != [] && c.columns[0] in KeyColumns(r) {
      KeyColumnIsKey(r, c.columns[0]);
    }
  }

  lemma ReferenceGone(table: string, cols: seq<ColumnDef>, c: TableConstraint, cs: seq<TableConstraint>)
    requires DistinctNames(cols) && c.ForeignKey? && c !in cs
    ensures c !in WithReferences(ClearInline(table, cols, c), cs)
  {
    var r := ClearInline(table, cols, c);
    forall i | 0 <= i < |r| && r[i].reference.Some? ensures c != OwnReference(r[i]) {
      FindColumnAt(cols, i);
    }
    ReferenceFrom(r, cs, c);
  }

  // ---------------------------------------------------------------- a removed constraint stays away

  /** The one way back: a composite constraint without a name, and nothing like it among the others. */
  ghost predicate ComesBack(cols: seq<ColumnDef>, others: seq<TableConstraint>, c: TableConstraint) {
    IsGroup(c) && Composite(cols, c) && !Has(KindOf(c), others, c)
  }

  lemma {:induction false} GroupKinds(kind: GroupKind, mentions: seq<(string, string)>, order: seq<string>,
      cs: seq<PlainConstraint>)
    ensures forall c: TableConstraint :: c in NewGroups(kind, mentions, order, cs) ==> IsGroup(c) && KindOf(c) == kind
    decreases |order|
  {
    if order != [] {
      GroupKinds(kind, mentions, order[1..], cs);
      GroupKinds(kind, mentions, order[1..], cs + [GroupConstraint(kind, order[0], GroupColumns(mentions, order[0]))]);
    }
  }

  lemma {:induction false} InPlain(cs: seq<TableConstraint>, c: TableConstraint)
    requires !c.ForeignKey?
    ensures c in cs <==> c in Plain(cs)
  {
    if cs != [] {
      InPlain(cs[1..], c);
    }
  }

  /** Where a promoted constraint that was not there before is from. */
  lemma PromotedIs(cols: seq<ColumnDef>, cs: seq<TableConstraint>, c: TableConstraint)
    requires c !in cs
    ensures
      var key := NewPrimaryKey(cols, Plain(cs));
      c in Promote(cols, cs) <==>
        if c.ForeignKey? then c in WithReferences(cols, cs + NewKeys(cols, Plain(cs)))
        else if c.PrimaryKey? then c in key
        else if c.Unique? then c in Grouped(Uniques, cols, Plain(cs) + key)
        else if c.Index? then c in Grouped(Indexes, cols, Plain(cs) + NewKeys(cols, Plain(cs)))
        else false
  {
    var plain := Plain(cs);
    var key, keys := NewPrimaryKey(cols, plain), NewKeys(cols, plain);
    GroupKinds(Uniques, Mentions(Uniques, cols), GroupOrder(Mentions(Uniques, cols)), plain + key);
    var referring := WithReferences(cols, cs + keys);
    PlainConcat(cs, keys);
    PlainIdentity(keys);
    PlainReferences(cols, cs + keys);
    assert Plain(referring) == plain + keys;
    GroupKinds(Indexes, Mentions(Indexes, cols), GroupOrder(Mentions(Indexes, cols)), plain + keys);
    if !c.ForeignKey? {
      InPlain(cs, c);
      InPlain(referring, c);
    }
  }

  lemma HasInPlain(kind: GroupKind, cs: seq<TableConstraint>, more: seq<PlainConstraint>, c: TableConstraint)
    requires forall i :: 0 <= i < |more| ==> !Resembles(kind, more[i], c)
    ensures Has(kind, Plain(cs) + more, c) <==> Has(kind, cs, c)
  {
    PlainHas(cs, (d: TableConstraint) => Resembles(kind, d, c));
    if Has(kind, Plain(cs), c) {
      var i :| 0 <= i < |Plain(cs)| && Resembles(kind, Plain(cs)[i], c);
      assert (Plain(cs) + more)[i] == Plain(cs)[i];
    }
  }

  /** A group constraint that was removed is promoted again exactly in that one case. */
  lemma GroupBack(table: string, cols: seq<ColumnDef>, others: seq<TableConstraint>, more: seq<PlainConstraint>,
      c: TableConstraint)
    requires DistinctNames(cols) && IsGroup(c) && forall i :: 0 <= i < |more| ==> !Resembles(KindOf(c), more[i], c)
    ensures c in Grouped(KindOf(c), ClearInline(table, cols, c), Plain(others) + more) <==> ComesBack(cols, others, c)
  {
    var kind, r := KindOf(c), ClearInline(table, cols, c);
    MakesAgain(table, cols, c);
    HasInPlain(kind, others, more, c);
    if c.name.None? {
      UnnamedAdded(kind, Mentions(kind, r), GroupOrder(Mentions(kind, r)), Plain(others) + more, c);
    } else {
      OnlyGroups(kind, Mentions(kind, r), GroupOrder(Mentions(kind, r)), Plain(others) + more, c);
    }
  }

  /** Normalizing again after a constraint was removed brings it back exactly if it is an unnamed unique
      constraint or index over several columns that spell a generated group name in their inline fields,
      and no other constraint is taken for it. */
  lemma RemovalSticks(t: TableDef, c: TableConstraint)
    requires DistinctNames(t.columns)
    ensures
      var r := ApplyToTable(t, RemoveConstraint(t.name, c));
      r.Ok? && (c in Promote(r.value.columns, r.value.constraints) <==> ComesBack(t.columns, r.value.constraints, c))
  {
    WithoutIt(t.constraints, c);
    RemoveOutcome(t, t.name, c);
    PromotedAgain(t.name, t.columns, WithoutConstraint(t.constraints, c), c);
  }

  lemma PromotedAgain(table: string, cols: seq<ColumnDef>, others: seq<TableConstraint>, c: TableConstraint)
    requires DistinctNames(cols) && c !in others
    ensures c in Promote(ClearInline(table, cols, c), others) <==> ComesBack(cols, others, c)
  {
    var r, plain := ClearInline(table, cols, c), Plain(others);
    PromotedIs(r, others, c);
    if c.ForeignKey? {
      InPlainOnly(NewKeys(r, plain), c);
      ReferenceGone(table, cols, c, others + NewKeys(r, plain));
    } else if c.PrimaryKey? {
      KeyGone(table, cols, c, plain);
    } else if c.Unique? {
      GroupBack(table, cols, others, NewPrimaryKey(r, plain), c);
    } else if c.Index? {
      NoIndexKeys(r, plain);
      GroupBack(table, cols, others, NewKeys(r, plain), c);
    }
  }

  lemma NoIndexKeys(cols: seq<ColumnDef>, cs: seq<PlainConstraint>)
    ensures forall i :: 0 <= i < |NewKeys(cols, cs)| ==> !NewKeys(cols, cs)[i].Index?
  {
    var key, keys := NewPrimaryKey(cols, cs), NewKeys(cols, cs);
    GroupKinds(Uniques, Mentions(Uniques, cols), GroupOrder(Mentions(Uniques, cols)), cs + key);
    forall i | 0 <= i < |keys| ensures !keys[i].Index? {
      assert keys[i] in keys;
    }
  }

  lemma {:induction false} WithoutIt(cs: seq<TableConstraint>, c: TableConstraint)
    ensures c !in WithoutConstraint(cs, c)
  {
    if cs != [] {
      WithoutIt(cs[1..], c);
    }
  }

  lemma InPlainOnly(cs: seq<PlainConstraint>, c: TableConstraint)
    requires c.ForeignKey?
    ensures c !in cs
  {
  }

  /** Such a group: two columns, one index group that looks generated. Removed, its index comes back. */
  lemma SpelledGroupComesBack(table: string, a: string, b: string, x: string)
    requires a != b
    ensures
      var cols, c := [Grouping(a, AUTO + x), Grouping(b, AUTO + x)], Index(None, [a, b]);
      var r := ApplyToTable(TableDef(table, cols, [c]), RemoveConstraint(table, c));
      r.Ok? && c !in r.value.constraints && c in Promote(r.value.columns, r.value.constraints)
  {
    var cols, c := [Grouping(a, AUTO + x), Grouping(b, AUTO + x)], Index(None, [a, b]);
    SpelledComposite(a, b, AUTO + x);
    WithoutOnly(c);
    RemoveOutcome(TableDef(table, cols, [c]), table, c);
    PromotedAgain(table, cols, [], c);
  }

  lemma WithoutOnly(c: TableConstraint)
    ensures WithoutConstraint([c], c) == []
  {
    assert [c][1..] == [] && WithoutConstraint([], c) == [];
  }

  lemma SpelledComposite(a: string, b: string, g: string)
    requires AUTO <= g
    ensures Composite([Grouping(a, g), Grouping(b, g)], Index(None, [a, b]))
  {
    var c, d, mentions := Grouping(a, g), Grouping(b, g), [(g, a), (g, b)];
    MentionsSnoc(Indexes, [], c);
    MentionsSnoc(Indexes, [c], d);
    assert [] + [c] == [c] && [c] + [d] == [c, d] && Mentions(Indexes, [c, d]) == mentions;
    GroupSnoc([], g, a);
    GroupSnoc([(g, a)], g, b);
    assert [] + [(g, a)] == [(g, a)] && mentions == [(g, a)] + [(g, b)];
    var order := GroupOrder(mentions);
    assert GroupConstraint(Indexes, order[0], GroupColumns(mentions, order[0])) == Index(None, [a, b]);
  }
}
