/** What a prefix misses: foreign keys declared inline on a column, and indexes that carry the name
    generated for their table. */
module PrefixMisses {
  import opened Common
  import opened Schema
  import opened ColumnView
  import opened References
  import opened Normalize
  import opened Prefix

  // ---------------------------------------------------------------- inline foreign keys

  /** The prefix does not reach an inline foreign key: replacing the constraint promoted from it
      replays, and the prefixed history replays exactly under the empty prefix. */
  lemma InlineReferenceMisses(p: string, x: ColumnDef, after: TableConstraint)
    requires x.reference.Some? && x.inlineOk
    ensures
      var key := OwnReference(x);
      var plans := [Plan(1, [CreateTable("t", [x], []), ReplaceConstraint("t", key, after)])];
      && Replay([], AllActions(plans)).Ok?
      && (Replay([], AllActions(PrefixPlans(p, plans))).Ok? <==> p == "")
  {
    var key := OwnReference(x);
    OnePlan(p, [CreateTable("t", [x], []), ReplaceConstraint("t", key, after)]);
    PrefixedPair(p, "t", x, key, after);
    PromotedOnly(x);
    CreateThenReplace("t", x, key, after);
    CreateThenReplace(p + "t", x, PrefixConstraint(p, key), PrefixConstraint(p, after));
    OwnKeyPrefixed(p, x);
  }

  lemma OwnKeyPrefixed(p: string, x: ColumnDef)
    requires x.reference.Some?
    ensures PrefixConstraint(p, OwnReference(x)).ForeignKey?
    ensures PrefixConstraint(p, OwnReference(x)) == OwnReference(x) <==> p == ""
  {
    var key := OwnReference(x);
    assert |p + key.refTable| == |p| + |key.refTable|;
  }

  lemma OnePlan(p: string, actions: seq<Action>)
    ensures AllActions([Plan(1, actions)]) == actions
    ensures AllActions(PrefixPlans(p, [Plan(1, actions)])) == PrefixActions(p, actions)
  {
    var plans := [Plan(1, actions)];
    assert plans[1..] == [] && AllActions(plans) == actions + [] == actions;
    AllActionsPrefixed(p, plans);
  }

  lemma PrefixedPair(p: string, table: string, x: ColumnDef, before: TableConstraint, after: TableConstraint)
    ensures PrefixActions(p, [CreateTable(table, [x], []), ReplaceConstraint(table, before, after)]) ==
      [CreateTable(p + table, [x], []),
        ReplaceConstraint(p + table, PrefixConstraint(p, before), PrefixConstraint(p, after))]
  {
    assert PrefixConstraints(p, []) == [];
    assert p == "" ==> p + table == table;
  }

  /** Creating a table and replacing a constraint of it replays if normalizing promoted it. */
  lemma CreateThenReplace(table: string, x: ColumnDef, before: TableConstraint, after: TableConstraint)
    requires x.inlineOk
    ensures Replay([], [CreateTable(table, [x], []), ReplaceConstraint(table, before, after)]).Ok?
       <==> before in Promote([x], [])
  {
    var t, create, last := TableDef(table, [x], Promote([x], [])), CreateTable(table, [x], []),
      ReplaceConstraint(table, before, after);
    CreateOne(table, x);
    assert [create, last] == [create] + [last];
    ReplayStep([], create, [t], [last]);
    ReplaceOnly(t, before, after);
  }

  lemma ReplaceOnly(t: TableDef, before: TableConstraint, after: TableConstraint)
    ensures Replay([t], [ReplaceConstraint(t.name, before, after)]).Ok? <==> before in t.constraints
  {
    var a := ReplaceConstraint(t.name, before, after);
    OneTable(t, a);
    ReplaySnoc([t], [], a);
    assert [] + [a] == [a];
  }

  lemma CreateOne(table: string, x: ColumnDef)
    requires x.inlineOk
    ensures ApplyAction([], CreateTable(table, [x], [])) == Ok([TableDef(table, [x], Promote([x], []))])
  {
    var s := [TableDef(table, [x], Promote([x], []))];
    assert [] + s == s && AllInlineOk([x]) && FindTable([], table) == 0;
  }

  /** The only foreign key promoted from one column is its own. */
  lemma PromotedOnly(x: ColumnDef)
    requires x.reference.Some?
    ensures forall k: TableConstraint :: k.ForeignKey? ==> (k in Promote([x], []) <==> k == OwnReference(x))
  {
    var keys := NewKeys([x], Plain([]));
    var referring := WithReferences([x], [] + keys);
    AppendedOnly(x, keys, Grouped(Indexes, [x], Plain(referring)));
  }

  lemma AppendedOnly(x: ColumnDef, keys: seq<PlainConstraint>, indexes: seq<PlainConstraint>)
    requires x.reference.Some?
    ensures forall k: TableConstraint :: k.ForeignKey? ==>
      (k in WithReferences([x], [] + keys) + indexes <==> k == OwnReference(x))
  {
    assert [x][1..] == [] && !HasForeignKey([] + keys, x.name);
    assert WithReferences([x], [] + keys) == [] + keys + [OwnReference(x)];
  }

  // ---------------------------------------------------------------- generated index names

  /** Exactly one of the tables would have generated the name for the first column of its name. */
  predicate OneGenerates(x: string, y: string, cols: seq<ColumnDef>, i: nat, n: string)
    requires i < |cols|
  {
    FindColumn(cols, cols[i].name) == i
      && ((n == AutoIndexName(x, cols[i].name)) != (n == AutoIndexName(y, cols[i].name)))
  }

  lemma UnequalCleared(x: string, y: string, col: ColumnDef, first: bool, n: string, columns: seq<string>)
    ensures
      ClearColumn(x, col, first, Index(Some(n), columns)) == ClearColumn(y, col, first, Index(Some(n), columns)) <==>
      (first && ((n == AutoIndexName(x, col.name)) != (n == AutoIndexName(y, col.name))) ==>
        WithoutGroup(n, col.marks.index) == None)
  {
  }

  /** Removing an index by name clears the same fields under either table exactly if every column
      for which only one of the tables would have generated the name has no other index group. */
  lemma ClearedExactly(x: string, y: string, cols: seq<ColumnDef>, n: string, columns: seq<string>)
    ensures
      var k := Index(Some(n), columns);
      ClearInline(x, cols, k) == ClearInline(y, cols, k) <==>
      forall i :: 0 <= i < |cols| && OneGenerates(x, y, cols, i, n) ==> WithoutGroup(n, cols[i].marks.index) == None
  {
    var k := Index(Some(n), columns);
    var r, q := ClearInline(x, cols, k), ClearInline(y, cols, k);
    assert r == q ==> forall i :: 0 <= i < |cols| ==> r[i] == q[i];
    forall i | 0 <= i < |cols|
      ensures r[i] == q[i] <==> (OneGenerates(x, y, cols, i, n) ==> WithoutGroup(n, cols[i].marks.index) == None)
    {
      UnequalCleared(x, y, cols[i], FindColumn(cols, cols[i].name) == i, n, columns);
    }
  }

  /** Both tables are still related if removing the index clears the same fields of them. */
  lemma RemovedRelated(p: string, exact: bool, t: TableDef, u: TableDef, k: TableConstraint)
    requires RelatedTable(p, exact, t, u) && k.Index?
    ensures
      RelatedTable(p, exact,
        TableDef(t.name, ClearInline(t.name, t.columns, k), WithoutConstraint(t.constraints, k)),
        TableDef(u.name, ClearInline(u.name, u.columns, k), WithoutConstraint(u.constraints, k))) <==>
      ClearInline(t.name, t.columns, k) == ClearInline(u.name, t.columns, k)
  {
    if exact {
      PrefixIsMap(p, t.constraints);
      PrefixIsMap(p, WithoutConstraint(t.constraints, k));
      WithoutMapped(Prefixing(p), t.constraints, k);
    } else {
      PlainRemove(t.constraints, u.constraints, k, k);
    }
  }

  /** So are two schemas. */
  lemma RemovedInSchemas(p: string, exact: bool, s: seq<TableDef>, w: seq<TableDef>, table: string, k: TableConstraint)
    requires Related(p, exact, s, w) && k.Index?
    ensures
      var i := FindTable(s, table);
      SameOutcome(p, exact, ApplyAction(s, RemoveConstraint(table, k)), ApplyAction(w, RemoveConstraint(p + table, k)))
      <==> (i < |s| ==> ClearInline(table, s[i].columns, k) == ClearInline(p + table, s[i].columns, k))
  {
    FindPrefixed(p, exact, s, w, table);
    var i := FindTable(s, table);
    if i < |s| {
      RemoveOutcome(s[i], table, k);
      RemoveOutcome(w[i], p + table, k);
      RemovedRelated(p, exact, s[i], w[i], k);
      RelatedAt(p, exact, s, w, i,
        TableDef(s[i].name, ClearInline(table, s[i].columns, k), WithoutConstraint(s[i].constraints, k)),
        TableDef(w[i].name, ClearInline(p + table, w[i].columns, k), WithoutConstraint(w[i].constraints, k)));
    }
  }

  lemma RelatedAt(p: string, exact: bool, s: seq<TableDef>, w: seq<TableDef>, i: nat, t: TableDef, u: TableDef)
    requires Related(p, exact, s, w) && i < |s|
    ensures Related(p, exact, s[i := t], w[i := u]) <==> RelatedTable(p, exact, t, u)
  {
    assert s[i := t][i] == t && w[i := u][i] == u;
  }

  /** After any history the prefix reaches, removing an index by name leaves the prefixed schema exactly if
      every column for which only one of the two tables would have generated the name has no other index
      group. */
  lemma RemovedUnderPrefix(p: string, exact: bool, actions: seq<Action>, table: string, n: string, columns: seq<string>)
    requires forall i :: 0 <= i < |actions| ==> Covered(p, exact, actions[i])
    ensures
      var all := actions + [RemoveConstraint(table, Index(Some(n), columns))];
      var before := Replay([], actions);
      SameOutcome(p, exact, Replay([], all), Replay([], PrefixActions(p, all))) <==>
      (before.Ok? && FindTable(before.value, table) < |before.value| ==>
        var cols := before.value[FindTable(before.value, table)].columns;
        forall i :: 0 <= i < |cols| && OneGenerates(table, p + table, cols, i, n) ==>
          WithoutGroup(n, cols[i].marks.index) == None)
  {
    var k: TableConstraint := Index(Some(n), columns);
    var last := RemoveConstraint(table, k);
    ReplayPrefixed(p, exact, [], [], actions);
    ReplaySnoc([], actions, last);
    ReplaySnoc([], PrefixActions(p, actions), RemoveConstraint(p + table, k));
    PrefixedSnoc(p, actions, table, k);
    var s := Replay([], actions);
    if s.Ok? {
      RemovedInSchemas(p, exact, s.value, Replay([], PrefixActions(p, actions)).value, table, k);
      if FindTable(s.value, table) < |s.value| {
        ClearedExactly(table, p + table, s.value[FindTable(s.value, table)].columns, n, columns);
      }
    }
  }

  lemma PrefixedSnoc(p: string, actions: seq<Action>, table: string, k: TableConstraint)
    requires k.Index?
    ensures PrefixActions(p, actions + [RemoveConstraint(table, k)]) ==
      PrefixActions(p, actions) + [RemoveConstraint(p + table, k)]
  {
    assert p == "" ==> p + table == table;
    assert PrefixAction(p, RemoveConstraint(table, k)) == RemoveConstraint(p + table, k);
  }

  /** Two columns of one index group, whose name another index has taken; an index removed under a
      generated name; the name set free; and the group promoted and replaced. */
  function AutoIndexHistory(table: string, n: string, c: string, b: string, z: string, d: string, x: string,
      after: TableConstraint): seq<Action>
  {
    [CreateTable(table, [Grouping(c, x), Grouping(b, x), PlainColumn(z)], [Index(Some(x), [z])]),
     RemoveConstraint(table, Index(Some(n), [c])),
     DeleteColumn(table, z),
     AddColumn(table, PlainColumn(d)),
     ReplaceConstraint(table, Index(Some(x), [b]), after)]
  }

  /** Three columns, and a group that is neither the removed name nor a generated one. */
  ghost predicate Distinct(n: string, c: string, b: string, z: string, x: string) {
    c != b && c != z && b != z && x != n && !(AUTO <= x)
  }

  lemma AutoNameInjective(table: string, c: string, b: string)
    requires AutoIndexName(table, c) == AutoIndexName(table, b)
    ensures c == b
  {
    var k := |AutoIndexName(table, "")|;
    assert AutoIndexName(table, c)[k..] == c && AutoIndexName(table, b)[k..] == b;
  }

  function Left(name: string, group: string, cleared: bool): ColumnDef {
    if cleared then PlainColumn(name) else Grouping(name, group)
  }

  function LeftGroup(c: string, b: string, noC: bool, noB: bool, x: string): seq<PlainConstraint> {
    var columns := (if noC then [] else [c]) + (if noB then [] else [b]);
    if columns == [] then [] else [Index(Some(x), columns)]
  }

  lemma LeftMentioned(cols: seq<ColumnDef>, name: string, x: string, cleared: bool)
    ensures Mentions(Indexes, cols + [Left(name, x, cleared)]) == Mentions(Indexes, cols) + if cleared then []
      else [(x, name)]
  {
    MentionsSnoc(Indexes, cols, Left(name, x, cleared));
    var gs := GroupsOf(Indexes, Left(name, x, cleared));
    assert seq(|gs|, i requires 0 <= i < |gs| => (gs[i], name)) == if cleared then [] else [(x, name)];
  }

  lemma LeftMentions(c: string, b: string, d: string, noC: bool, noB: bool, x: string)
    ensures Mentions(Indexes, [Left(c, x, noC), Left(b, x, noB), PlainColumn(d)]) ==
      (if noC then [] else [(x, c)]) + (if noB then [] else [(x, b)])
  {
    var one := [] + [Left(c, x, noC)];
    var two := one + [Left(b, x, noB)];
    LeftMentioned([], c, x, noC);
    LeftMentioned(one, b, x, noB);
    LeftMentioned(two, d, x, true);
    assert two + [Left(d, x, true)] == [Left(c, x, noC), Left(b, x, noB), PlainColumn(d)];
  }

  lemma GroupPromoted(mentions: seq<(string, string)>, c: string, b: string, noC: bool, noB: bool, x: string)
    requires mentions == (if noC then [] else [(x, c)]) + (if noB then [] else [(x, b)]) && !(AUTO <= x)
    ensures NewGroups(Indexes, mentions, GroupOrder(mentions), []) == LeftGroup(c, b, noC, noB, x)
  {
    if mentions != [] {
      var columns := (if noC then [] else [c]) + (if noB then [] else [b]);
      if |mentions| == 1 {
        GroupSnoc([], x, columns[0]);
        assert mentions == [] + [(x, columns[0])];
      } else {
        GroupSnoc([], x, c);
        GroupSnoc([(x, c)], x, b);
        assert [] + [(x, c)] == [(x, c)] && mentions == [(x, c)] + [(x, b)];
      }
      OneGroup(mentions, x, columns);
    }
  }

  lemma OneGroup(mentions: seq<(string, string)>, x: string, columns: seq<string>)
    requires GroupOrder(mentions) == [x] && GroupColumns(mentions, x) == columns && !(AUTO <= x)
    ensures NewGroups(Indexes, mentions, [x], []) == [Index(Some(x), columns)]
  {
    var c := GroupConstraint(Indexes, x, columns);
    assert [x][1..] == [] && [c] + [] == [c];
  }

  /** The table after the index is removed and the third column dropped. */
  function Remaining(table: string, c: string, b: string, noC: bool, noB: bool, x: string): TableDef {
    TableDef(table, [Left(c, x, noC), Left(b, x, noB)], [])
  }

  lemma NothingPromoted(cols: seq<ColumnDef>, cs: seq<PlainConstraint>)
    requires forall i :: 0 <= i < |cols| ==>
      cols[i].marks.primaryKey.None? && cols[i].marks.unique.None? && cols[i].reference.None?
    ensures NewKeys(cols, cs) == [] && WithReferences(cols, cs) == cs
  {
    NoKeys(cols);
    NoUniques(cols);
    NoneReferring(cols, cs);
  }

  lemma {:induction false} NoKeys(cols: seq<ColumnDef>)
    requires forall i :: 0 <= i < |cols| ==> cols[i].marks.primaryKey.None?
    ensures KeyColumns(cols) == []
  {
    if cols != [] {
      NoKeys(cols[1..]);
    }
  }

  lemma {:induction false} NoUniques(cols: seq<ColumnDef>)
    requires forall i :: 0 <= i < |cols| ==> cols[i].marks.unique.None?
    ensures Mentions(Uniques, cols) == []
  {
    if cols != [] {
      NoUniques(cols[..|cols| - 1]);
    }
  }

  lemma {:induction false} NoneReferring(cols: seq<ColumnDef>, cs: seq<TableConstraint>)
    requires NoReferences(cols)
    ensures WithReferences(cols, cs) == cs
    decreases |cols|
  {
    if cols != [] {
      NoneReferring(cols[1..], cs);
    }
  }

  lemma TakenGroup(mentions: seq<(string, string)>, x: string, z: string)
    requires !(AUTO <= x)
    ensures NewGroups(Indexes, mentions, [x], [Index(Some(x), [z])]) == []
  {
    var cs: seq<PlainConstraint>, c := [Index(Some(x), [z])], GroupConstraint(Indexes, x, GroupColumns(mentions, x));
    assert Resembles(Indexes, cs[0], c) && [x][1..] == [];
  }

  /** Created, the table has only the index that takes the group's name. */
  lemma CreateTaken(table: string, n: string, c: string, b: string, z: string, x: string)
    requires Distinct(n, c, b, z, x)
    ensures var cols := [Grouping(c, x), Grouping(b, x), PlainColumn(z)];
      ApplyAction([], CreateTable(table, cols, [Index(Some(x), [z])])) ==
        Ok([TableDef(table, cols, [Index(Some(x), [z])])])
  {
    var cols := [Grouping(c, x), Grouping(b, x), PlainColumn(z)];
    TakenStays(c, b, z, x);
    assert AllInlineOk(cols) && FindTable([], table) == 0;
    assert [] + [TableDef(table, cols, [Index(Some(x), [z])])] == [TableDef(table, cols, [Index(Some(x), [z])])];
  }

  lemma TakenStays(c: string, b: string, z: string, x: string)
    requires !(AUTO <= x)
    ensures Promote([Grouping(c, x), Grouping(b, x), PlainColumn(z)], [Index(Some(x), [z])]) == [Index(Some(x), [z])]
  {
    var cols, cs: seq<PlainConstraint> := [Grouping(c, x), Grouping(b, x), PlainColumn(z)], [Index(Some(x), [z])];
    PlainIdentity(cs);
    NothingPromoted(cols, cs);
    LeftMentions(c, b, z, false, false, x);
    var mentions := Mentions(Indexes, cols);
    GroupSnoc([], x, c);
    GroupSnoc([(x, c)], x, b);
    assert [] + [(x, c)] == [(x, c)] && mentions == [(x, c)] + [(x, b)];
    TakenGroup(mentions, x, z);
    assert cs + [] == cs && GroupOrder(mentions) == [x];
    PromoteParts(cols, cs, [], cs, []);
  }

  /** `Promote`, given what each of its three steps yields. */
  lemma PromoteParts(cols: seq<ColumnDef>, cs: seq<PlainConstraint>, keys: seq<PlainConstraint>,
      referring: seq<PlainConstraint>, indexes: seq<PlainConstraint>)
    requires Plain(cs) == cs && NewKeys(cols, cs) == keys
    requires WithReferences(cols, cs + keys) == referring && Plain(referring) == referring
    requires Grouped(Indexes, cols, referring) == indexes
    ensures Promote(cols, cs) == referring + indexes
  {
  }

  lemma ThreeColumns(c: ColumnDef, b: ColumnDef, z: ColumnDef)
    requires c.name != b.name && c.name != z.name && b.name != z.name
    ensures var cols := [c, b, z];
      FindColumn(cols, c.name) == 0 && FindColumn(cols, b.name) == 1 && FindColumn(cols, z.name) == 2
        && WithoutColumn(cols, z.name) == [c, b]
  {
    var cols := [c, b, z];
    assert cols[1..] == [b, z] && [b, z][1..] == [z] && [z][1..] == [];
    assert WithoutColumn([z], z.name) == [] && WithoutColumn([b, z], z.name) == [b];
  }

  lemma RemoveByName(table: string, n: string, c: string, b: string, z: string, x: string)
    requires Distinct(n, c, b, z, x)
    ensures
      var cols, taken := [Grouping(c, x), Grouping(b, x), PlainColumn(z)], [Index(Some(x), [z])];
      var noC, noB := n == AutoIndexName(table, c), n == AutoIndexName(table, b);
      ApplyAction([TableDef(table, cols, taken)], RemoveConstraint(table, Index(Some(n), [c]))) ==
        Ok([TableDef(table, [Left(c, x, noC), Left(b, x, noB), PlainColumn(z)], taken)])
  {
    var t, k := TableDef(table, [Grouping(c, x), Grouping(b, x), PlainColumn(z)], [Index(Some(x), [z])]),
      Index(Some(n), [c]);
    ClearedThree(table, n, c, b, z, x);
    OtherStays(t.constraints[0], k);
    RemoveOutcome(t, table, k);
    OneTable(t, RemoveConstraint(table, k));
  }

  lemma OtherStays(c: TableConstraint, k: TableConstraint)
    requires c != k
    ensures WithoutConstraint([c], k) == [c]
  {
    assert [c][1..] == [] && WithoutConstraint([], k) == [];
  }

  lemma ClearedThree(table: string, n: string, c: string, b: string, z: string, x: string)
    requires Distinct(n, c, b, z, x)
    ensures ClearInline(table, [Grouping(c, x), Grouping(b, x), PlainColumn(z)], Index(Some(n), [c])) ==
      [Left(c, x, n == AutoIndexName(table, c)), Left(b, x, n == AutoIndexName(table, b)), PlainColumn(z)]
  {
    ThreeColumns(Grouping(c, x), Grouping(b, x), PlainColumn(z));
    ClearedByName(table, n, Grouping(c, x), c, x, [c]);
    ClearedByName(table, n, Grouping(b, x), b, x, [c]);
  }

  lemma ClearedByName(table: string, n: string, col: ColumnDef, name: string, x: string, columns: seq<string>)
    requires col == Grouping(name, x) && n != x
    ensures ClearColumn(table, col, true, Index(Some(n), columns)) == Left(name, x, n == AutoIndexName(table, name))
  {
  }

  lemma DropTaken(table: string, n: string, c: string, b: string, z: string, x: string, noC: bool, noB: bool)
    requires Distinct(n, c, b, z, x)
    ensures
      ApplyAction([TableDef(table, [Left(c, x, noC), Left(b, x, noB), PlainColumn(z)], [Index(Some(x), [z])])],
        DeleteColumn(table, z)) ==
        Ok([Remaining(table, c, b, noC, noB, x)])
  {
    var t := TableDef(table, [Left(c, x, noC), Left(b, x, noB), PlainColumn(z)], [Index(Some(x), [z])]);
    ThreeColumns(t.columns[0], t.columns[1], t.columns[2]);
    assert [z][1..] == [] && WithoutName([z], z) == [] && t.constraints[1..] == [];
    assert DropFromConstraints(t.constraints, z) == [];
    OneTable(t, DeleteColumn(table, z));
  }

  lemma RoomForThird(c: ColumnDef, b: ColumnDef, d: ColumnDef)
    requires d.name != c.name && d.name != b.name && c.inlineOk && b.inlineOk && d.inlineOk
    ensures FindColumn([c, b], d.name) == |[c, b]| && [c, b] + [d] == [c, b, d] && AllInlineOk([c, b] + [d])
  {
    assert [c, b][1..] == [b] && [b][1..] == [];
  }

  lemma AddPromotes(table: string, c: string, b: string, d: string, noC: bool, noB: bool, x: string)
    requires d != c && d != b && !(AUTO <= x)
    ensures
      ApplyAction([Remaining(table, c, b, noC, noB, x)], AddColumn(table, PlainColumn(d))) ==
        Ok([TableDef(table, [Left(c, x, noC), Left(b, x, noB), PlainColumn(d)], LeftGroup(c, b, noC, noB, x))])
  {
    var t := Remaining(table, c, b, noC, noB, x);
    RoomForThird(Left(c, x, noC), Left(b, x, noB), PlainColumn(d));
    LeftPromoted(c, b, d, noC, noB, x);
    AddOutcome(t, table, PlainColumn(d));
    OneTable(t, AddColumn(table, PlainColumn(d)));
  }

  lemma LeftPromoted(c: string, b: string, d: string, noC: bool, noB: bool, x: string)
    requires !(AUTO <= x)
    ensures Promote([Left(c, x, noC), Left(b, x, noB), PlainColumn(d)], []) == LeftGroup(c, b, noC, noB, x)
  {
    var cols := [Left(c, x, noC), Left(b, x, noB), PlainColumn(d)];
    NothingPromoted(cols, []);
    LeftMentions(c, b, d, noC, noB, x);
    GroupPromoted(Mentions(Indexes, cols), c, b, noC, noB, x);
    PromoteParts(cols, [], [], [], LeftGroup(c, b, noC, noB, x));
    assert [] + LeftGroup(c, b, noC, noB, x) == LeftGroup(c, b, noC, noB, x);
  }

  lemma ReplaceLeft(table: string, cols: seq<ColumnDef>, c: string, b: string, noC: bool, noB: bool, x: string,
      after: TableConstraint)
    requires c != b
    ensures
      var a := ReplaceConstraint(table, Index(Some(x), [b]), after);
      Replay([TableDef(table, cols, LeftGroup(c, b, noC, noB, x))], [a]).Ok? <==> noC && !noB
  {
    var t := TableDef(table, cols, LeftGroup(c, b, noC, noB, x));
    ReplaceOnly(t, Index(Some(x), [b]), after);
    assert [] + [b] == [b] && [c] + [] == [c];
    assert !noC ==> t.constraints == [] || (t.constraints[0].columns[0] == c && t.constraints == [t.constraints[0]]);
  }

  /** The history replays exactly if the table would have generated the removed name for `c`. */
  lemma AutoIndexReplay(table: string, n: string, c: string, b: string, z: string, d: string, x: string,
      after: TableConstraint)
    requires Distinct(n, c, b, z, x) && d != c && d != b
    ensures Replay([], AutoIndexHistory(table, n, c, b, z, d, x, after)).Ok? <==> n == AutoIndexName(table, c)
  {
    var noC, noB := n == AutoIndexName(table, c), n == AutoIndexName(table, b);
    var last := ReplaceConstraint(table, Index(Some(x), [b]), after);
    CreateAndRemove(table, n, c, b, z, x, [DeleteColumn(table, z), AddColumn(table, PlainColumn(d)), last]);
    DropAndAdd(table, n, c, b, z, d, noC, noB, x, [last]);
    FiveActions(table, n, c, b, z, d, x, after);
    ReplaceLeft(table, [Left(c, x, noC), Left(b, x, noB), PlainColumn(d)], c, b, noC, noB, x, after);
    if noC && noB {
      AutoNameInjective(table, c, b);
    }
  }

  lemma FiveActions(table: string, n: string, c: string, b: string, z: string, d: string, x: string,
      after: TableConstraint)
    ensures
      var cols, last := [Grouping(c, x), Grouping(b, x), PlainColumn(z)],
        ReplaceConstraint(table, Index(Some(x), [b]), after);
      && AutoIndexHistory(table, n, c, b, z, d, x, after) ==
        [CreateTable(table, cols, [Index(Some(x), [z])]), RemoveConstraint(table, Index(Some(n), [c]))]
          + [DeleteColumn(table, z), AddColumn(table, PlainColumn(d)), last]
      && [DeleteColumn(table, z), AddColumn(table, PlainColumn(d)), last] ==
        [DeleteColumn(table, z), AddColumn(table, PlainColumn(d))] + [last]
  {
  }

  lemma CreateAndRemove(table: string, n: string, c: string, b: string, z: string, x: string, rest: seq<Action>)
    requires Distinct(n, c, b, z, x)
    ensures
      var cols, taken := [Grouping(c, x), Grouping(b, x), PlainColumn(z)], [Index(Some(x), [z])];
      var noC, noB := n == AutoIndexName(table, c), n == AutoIndexName(table, b);
      Replay([], [CreateTable(table, cols, taken), RemoveConstraint(table, Index(Some(n), [c]))] + rest) ==
        Replay([TableDef(table, [Left(c, x, noC), Left(b, x, noB), PlainColumn(z)], taken)], rest)
  {
    var cols, taken := [Grouping(c, x), Grouping(b, x), PlainColumn(z)], [Index(Some(x), [z])];
    var noC, noB := n == AutoIndexName(table, c), n == AutoIndexName(table, b);
    CreateTaken(table, n, c, b, z, x);
    RemoveByName(table, n, c, b, z, x);
    TwoSteps([], CreateTable(table, cols, taken), RemoveConstraint(table, Index(Some(n), [c])),
      [TableDef(table, cols, taken)],
      [TableDef(table, [Left(c, x, noC), Left(b, x, noB), PlainColumn(z)], taken)], rest);
  }

  lemma DropAndAdd(table: string, n: string, c: string, b: string, z: string, d: string, noC: bool, noB: bool,
      x: string, rest: seq<Action>)
    requires Distinct(n, c, b, z, x) && d != c && d != b
    ensures
      Replay([TableDef(table, [Left(c, x, noC), Left(b, x, noB), PlainColumn(z)], [Index(Some(x), [z])])],
        [DeleteColumn(table, z), AddColumn(table, PlainColumn(d))] + rest) ==
      Replay([TableDef(table, [Left(c, x, noC), Left(b, x, noB), PlainColumn(d)], LeftGroup(c, b, noC, noB, x))], rest)
  {
    DropTaken(table, n, c, b, z, x, noC, noB);
    AddPromotes(table, c, b, d, noC, noB, x);
    TwoSteps([TableDef(table, [Left(c, x, noC), Left(b, x, noB), PlainColumn(z)], [Index(Some(x), [z])])],
      DeleteColumn(table, z), AddColumn(table, PlainColumn(d)), [Remaining(table, c, b, noC, noB, x)],
      [TableDef(table, [Left(c, x, noC), Left(b, x, noB), PlainColumn(d)], LeftGroup(c, b, noC, noB, x))], rest);
  }

  lemma TwoSteps(s: seq<TableDef>, a: Action, b: Action, s1: seq<TableDef>, s2: seq<TableDef>, rest: seq<Action>)
    requires ApplyAction(s, a) == Ok(s1) && ApplyAction(s1, b) == Ok(s2)
    ensures Replay(s, [a, b] + rest) == Replay(s2, rest)
  {
    assert [a, b] + rest == [a] + ([b] + rest);
    ReplayStep(s, a, s1, [b] + rest);
    ReplayStep(s1, b, s2, rest);
  }

  /** Index names are not prefixed, and the name an index is removed by may be the one generated for its
      table: that clears the column's inline field, under the prefix it does not. The history replays, and
      prefixed it replays exactly under the empty prefix. */
  lemma AutoIndexMisses(p: string, table: string, c: string, b: string, z: string, d: string, x: string,
      after: TableConstraint)
    requires Distinct(AutoIndexName(table, c), c, b, z, x) && d != c && d != b
    ensures
      var plans := [Plan(1, AutoIndexHistory(table, AutoIndexName(table, c), c, b, z, d, x, after))];
      && Replay([], AllActions(plans)).Ok?
      && (Replay([], AllActions(PrefixPlans(p, plans))).Ok? <==> p == "")
  {
    var n := AutoIndexName(table, c);
    OnePlan(p, AutoIndexHistory(table, n, c, b, z, d, x, after));
    AutoIndexReplay(table, n, c, b, z, d, x, after);
    AutoIndexReplay(p + table, n, c, b, z, d, x, PrefixConstraint(p, after));
    PrefixedHistory(p, table, n, c, b, z, d, x, after);
    assert |AutoIndexName(p + table, c)| == |p| + |n|;
    assert p == "" ==> p + table == table;
  }

  lemma PrefixedHistory(p: string, table: string, n: string, c: string, b: string, z: string, d: string, x: string,
      after: TableConstraint)
    ensures PrefixActions(p, AutoIndexHistory(table, n, c, b, z, d, x, after)) ==
            AutoIndexHistory(p + table, n, c, b, z, d, x, PrefixConstraint(p, after))
  {
    var taken: seq<TableConstraint> := [Index(Some(x), [z])];
    assert PrefixConstraints(p, taken) == taken;
    assert p == "" ==> p + table == table;
    assert PrefixConstraint(p, Index(Some(n), [c])) == Index(Some(n), [c]);
    var h, q := AutoIndexHistory(table, n, c, b, z, d, x, after),
      AutoIndexHistory(p + table, n, c, b, z, d, x, PrefixConstraint(p, after));
    forall i | 0 <= i < |h| ensures PrefixAction(p, h[i]) == q[i] {
    }
  }
}
