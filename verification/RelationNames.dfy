/** Relation names of a table's foreign keys, and the reverse view other tables take of them. */
module RelationNames {
  import opened Common
  import opened Decimal

  datatype Constraint =
    | ForeignKey(columns: seq<string>, refTable: string, refColumns: seq<string>, onDelete: Option<string>,
      onUpdate: Option<string>)
    | PrimaryKey(columns: seq<string>)
    | Unique(columns: seq<string>)
    | Other

  datatype Table = Table(name: string, constraints: seq<Constraint>)

  /** The case conversions of the exporter, which the naming treats as given. */
  datatype Casing = Casing(pascal: string -> string, field: string -> string)

  function Join(parts: seq<string>): string {
    if parts == [] then "" else if |parts| == 1 then parts[0] else parts[0] + "_" + Join(parts[1..])
  }

  function RelationSegment(columns: seq<string>, casing: Casing): string {
    Join(seq(|columns|, i requires 0 <= i < |columns| => casing.field(columns[i])))
  }

  function Base(table: string, columns: seq<string>, casing: Casing): string {
    casing.pascal(table) + casing.pascal(RelationSegment(columns, casing))
  }

  // ---------------------------------------------------------------- numbering

  /** A foreign key's group and base name. */
  type Slot = (string, string)

  function SlotOf(t: Table, i: nat, casing: Casing): Option<Slot>
    requires i < |t.constraints|
  {
    var c := t.constraints[i];
    if c.ForeignKey? then Some((c.refTable, Base(t.name, c.columns, casing))) else None
  }

  /** How many of the first `n` constraints claim the slot. */
  function Uses(t: Table, n: nat, slot: Slot, casing: Casing): nat
    requires n <= |t.constraints|
  {
    if n == 0 then 0 else Uses(t, n - 1, slot, casing) + if SlotOf(t, n - 1, casing) == Some(slot) then 1 else 0
  }

  function Suffix(rank: nat): string {
    if rank == 1 then "" else Numeral(rank)
  }

  /** The place of foreign key `i` among those of its slot, from 1. */
  function Rank(t: Table, i: nat, casing: Casing): nat
    requires i < |t.constraints| && t.constraints[i].ForeignKey?
  {
    Uses(t, i + 1, SlotOf(t, i, casing).value, casing)
  }

  function BaseOf(t: Table, i: nat, casing: Casing): string
    requires i < |t.constraints| && t.constraints[i].ForeignKey?
  {
    Base(t.name, t.constraints[i].columns, casing)
  }

  function NameOf(t: Table, i: nat, casing: Casing): string
    requires i < |t.constraints| && t.constraints[i].ForeignKey?
  {
    BaseOf(t, i, casing) + Suffix(Rank(t, i, casing))
  }

  /** `fk_relation_names`: one name per foreign key, repeats numbered in constraint order. */
  method FkRelationNames(t: Table, casing: Casing) returns (names: map<nat, string>)
    ensures forall i: nat :: i in names <==> i < |t.constraints| && t.constraints[i].ForeignKey?
    ensures forall i :: i in names ==> names[i] == NameOf(t, i, casing)
  {
    var used: map<Slot, nat> := map[];
    names := map[];
    for i := 0 to |t.constraints|
      invariant forall slot: Slot :: (if slot in used then used[slot] else 0) == Uses(t, i, slot, casing)
      invariant forall k: nat :: k in names <==> k < i && t.constraints[k].ForeignKey?
      invariant forall k :: k in names ==> names[k] == NameOf(t, k, casing)
    {
      var c := t.constraints[i];
      if c.ForeignKey? {
        var base := Base(t.name, c.columns, casing);
        var seen := (if (c.refTable, base) in used then used[(c.refTable, base)] else 0) + 1;
        used := used[(c.refTable, base) := seen];
        var name := if seen == 1 then base else base + Numeral(seen);
        assert base + "" == base;
        assert Uses(t, i + 1, (c.refTable, base), casing) == seen;
        names := names[i := name];
      }
    }
  }

  // ---------------------------------------------------------------- distinctness

  /** Two foreign keys of `t` with the same target. */
  predicate SameTarget(t: Table, i: nat, j: nat) {
    && i < |t.constraints| && j < |t.constraints|
    && t.constraints[i].ForeignKey? && t.constraints[j].ForeignKey?
    && t.constraints[i].refTable == t.constraints[j].refTable
  }

  lemma {:induction false} UsesGrow(t: Table, m: nat, n: nat, slot: Slot, casing: Casing)
    requires m <= n <= |t.constraints|
    ensures Uses(t, m, slot, casing) <= Uses(t, n, slot, casing)
  {
    if m < n {
      UsesGrow(t, m, n - 1, slot, casing);
    }
  }

  lemma SameBaseDiffers(t: Table, i: nat, j: nat, casing: Casing)
    requires i < j && SameTarget(t, i, j) && BaseOf(t, i, casing) == BaseOf(t, j, casing)
    ensures 1 <= Rank(t, i, casing) < Rank(t, j, casing)
  {
    UsesGrow(t, i + 1, j, SlotOf(t, j, casing).value, casing);
  }

  lemma SuffixInjective(m: nat, n: nat)
    requires m >= 1 && n >= 1 && Suffix(m) == Suffix(n)
    ensures m == n
  {
    if m != 1 && n != 1 {
      NumeralInjective(m, n);
    }
  }

  lemma RankPositive(t: Table, i: nat, casing: Casing)
    requires i < |t.constraints| && t.constraints[i].ForeignKey?
    ensures Rank(t, i, casing) >= 1
  {
  }

  /** The number given to foreign key `i` spells the end of `j`'s longer base name, and its number. */
  ghost predicate Absorbs(t: Table, i: nat, j: nat, casing: Casing)
    requires SameTarget(t, i, j)
  {
    exists tail :: tail != "" && BaseOf(t, j, casing) == BaseOf(t, i, casing) + tail
      && Suffix(Rank(t, i, casing)) == tail + Suffix(Rank(t, j, casing))
  }

  lemma ShorterIsPrefix(a: string, x: string, b: string, y: string)
    requires a + x == b + y && |a| <= |b|
    ensures b == a + b[|a|..] && x == b[|a|..] + y
  {
    assert (a + x)[..|a|] == a && (b + y)[..|a|] == b[..|a|];
    assert (a + x)[|a|..] == x && (b + y)[|a|..] == b[|a|..] + y;
  }

  lemma CollisionAbsorbs(t: Table, i: nat, j: nat, casing: Casing)
    requires SameTarget(t, i, j) && i != j && NameOf(t, i, casing) == NameOf(t, j, casing)
    requires |BaseOf(t, i, casing)| <= |BaseOf(t, j, casing)|
    ensures Absorbs(t, i, j, casing)
  {
    var a, b, x, y := BaseOf(t, i, casing), BaseOf(t, j, casing), Suffix(Rank(t, i, casing)),
      Suffix(Rank(t, j, casing));
    ShorterIsPrefix(a, x, b, y);
    if b[|a|..] == "" {
      assert a == b && x == y;
      RankPositive(t, i, casing);
      RankPositive(t, j, casing);
      SuffixInjective(Rank(t, i, casing), Rank(t, j, casing));
      if i < j {
        SameBaseDiffers(t, i, j, casing);
      } else {
        SameBaseDiffers(t, j, i, casing);
      }
    }
  }

  lemma AbsorbsCollides(t: Table, i: nat, j: nat, casing: Casing)
    requires SameTarget(t, i, j) && Absorbs(t, i, j, casing)
    ensures NameOf(t, i, casing) == NameOf(t, j, casing)
  {
    var a, y := BaseOf(t, i, casing), Suffix(Rank(t, j, casing));
    var tail :| tail != "" && BaseOf(t, j, casing) == a + tail && Suffix(Rank(t, i, casing)) == tail + y;
    assert a + (tail + y) == (a + tail) + y;
  }

  /** Two foreign keys with one target share a name exactly when the number of one is absorbed by
      the other's base name. */
  lemma CollisionExactly(t: Table, i: nat, j: nat, casing: Casing)
    requires SameTarget(t, i, j) && i != j
    ensures NameOf(t, i, casing) == NameOf(t, j, casing) <==> Absorbs(t, i, j, casing) || Absorbs(t, j, i, casing)
  {
    if NameOf(t, i, casing) == NameOf(t, j, casing) {
      if |BaseOf(t, i, casing)| <= |BaseOf(t, j, casing)| {
        CollisionAbsorbs(t, i, j, casing);
      } else {
        CollisionAbsorbs(t, j, i, casing);
      }
    }
    if Absorbs(t, i, j, casing) {
      AbsorbsCollides(t, i, j, casing);
    }
    if Absorbs(t, j, i, casing) {
      AbsorbsCollides(t, j, i, casing);
    }
  }

  predicate ExtendedByDigits(a: string, b: string) {
    |a| < |b| && b[..|a|] == a && AllDigits(b[|a|..])
  }

  /** No base name among the foreign keys to one target is another one followed by digits. */
  ghost predicate NoDigitTails(t: Table, target: string, casing: Casing) {
    forall i: nat, j: nat :: SameTarget(t, i, j) && t.constraints[i].refTable == target
      ==> !ExtendedByDigits(BaseOf(t, i, casing), BaseOf(t, j, casing))
  }

  lemma AbsorbedEndsInDigits(t: Table, i: nat, j: nat, casing: Casing)
    requires SameTarget(t, i, j) && Absorbs(t, i, j, casing)
    ensures ExtendedByDigits(BaseOf(t, i, casing), BaseOf(t, j, casing))
  {
    var tail :| tail != "" && BaseOf(t, j, casing) == BaseOf(t, i, casing) + tail
      && Suffix(Rank(t, i, casing)) == tail + Suffix(Rank(t, j, casing));
    var all := Suffix(Rank(t, i, casing));
    assert BaseOf(t, j, casing)[|BaseOf(t, i, casing)|..] == tail;
    assert AllDigits(all);
    assert forall k :: 0 <= k < |tail| ==> tail[k] == all[k];
  }

  /** Relation names within one target are pairwise distinct when no base name is another followed
      by digits. */
  lemma NamesAreDistinct(t: Table, target: string, casing: Casing, i: nat, j: nat)
    requires SameTarget(t, i, j) && i != j && t.constraints[i].refTable == target
    requires NoDigitTails(t, target, casing)
    ensures NameOf(t, i, casing) != NameOf(t, j, casing)
  {
    CollisionExactly(t, i, j, casing);
    if Absorbs(t, i, j, casing) {
      AbsorbedEndsInDigits(t, i, j, casing);
    }
    if Absorbs(t, j, i, casing) {
      AbsorbedEndsInDigits(t, j, i, casing);
    }
  }

  lemma SingleColumn(column: string, casing: Casing)
    ensures RelationSegment([column], casing) == casing.field(column)
  {
    assert seq(1, i requires 0 <= i < 1 => casing.field([column][i])) == [casing.field(column)];
  }

  /** Pascal case and relation fields on the names of the witness below. */
  function PostCasing(): Casing {
    Casing(
      (s: string) => if s == "post" then "Post" else if s == "author" then "Author"
        else if s == "author2" then "Author2" else s,
      (s: string) => if s == "author_id" then "author" else if s == "author2_id" then "author2" else s)
  }

  function PostTable(): Table {
    Table("post", [
      ForeignKey(["author_id"], "user", ["id"], None, None),
      ForeignKey(["author"], "user", ["name"], None, None),
      ForeignKey(["author2_id"], "user", ["id"], None, None)])
  }

  /** Columns `author_id`, `author` and `author2_id` of `post`: the second relation is numbered 2 and
      meets the third. */
  lemma DigitTailsCollide()
    ensures NameOf(PostTable(), 1, PostCasing()) == NameOf(PostTable(), 2, PostCasing()) == "PostAuthor2"
  {
    var t, casing := PostTable(), PostCasing();
    SingleColumn("author_id", casing);
    SingleColumn("author", casing);
    SingleColumn("author2_id", casing);
    assert "Post" + "Author" == "PostAuthor" && "Post" + "Author2" == "PostAuthor2"
      && "PostAuthor" + "2" == "PostAuthor2";
    assert BaseOf(t, 0, casing) == BaseOf(t, 1, casing) == "PostAuthor" && BaseOf(t, 2, casing) == "PostAuthor2";
    var first, second := ("user", "PostAuthor"), ("user", "PostAuthor2");
    assert SlotOf(t, 0, casing) == SlotOf(t, 1, casing) == Some(first) && SlotOf(t, 2, casing) == Some(second);
    assert Uses(t, 0, first, casing) == Uses(t, 0, second, casing) == 0;
    assert Uses(t, 1, first, casing) == 1 && Uses(t, 2, first, casing) == 2;
    assert Uses(t, 2, second, casing) == Uses(t, 1, second, casing) == 0;
    assert Rank(t, 1, casing) == 2 && Rank(t, 2, casing) == 1;
    assert Numeral(2) == "2";
    assert "PostAuthor2" + "" == "PostAuthor2";
  }

  // ---------------------------------------------------------------- the reverse view

  datatype BackRelation = BackRelation(
    sourceTable: string, fkColumns: seq<string>, refColumns: seq<string>,
    onDelete: Option<string>, onUpdate: Option<string>,
    segment: string, isOneToOne: bool, relationName: Option<string>)

  /** The columns of the table's first primary key. */
  function PrimaryKeyColumns(cs: seq<Constraint>): seq<string> {
    if cs == [] then [] else if cs[0].PrimaryKey? then cs[0].columns else PrimaryKeyColumns(cs[1..])
  }

  function AsSet(columns: seq<string>): set<string> {
    set c | c in columns
  }

  /** The code's test that a key's columns are the foreign key's columns. */
  predicate Covers(key: seq<string>, fk: seq<string>) {
    |key| == |AsSet(fk)| && forall i :: 0 <= i < |key| ==> key[i] in AsSet(fk)
  }

  predicate IsOneToOne(t: Table, fk: seq<string>) {
    || Covers(PrimaryKeyColumns(t.constraints), fk)
    || exists i :: 0 <= i < |t.constraints| && t.constraints[i].Unique? && Covers(t.constraints[i].columns, fk)
  }

  /** How many of the first `n` constraints point at the target. */
  function Pointing(t: Table, n: nat, target: string): nat
    requires n <= |t.constraints|
  {
    if n == 0 then 0 else Pointing(t, n - 1, target) + if PointsAt(t, n - 1, target) then 1 else 0
  }

  predicate PointsAt(t: Table, i: nat, target: string)
    requires i < |t.constraints|
  {
    t.constraints[i].ForeignKey? && t.constraints[i].refTable == target
  }

  predicate Needed(t: Table, target: string) {
    Pointing(t, |t.constraints|, target) > 1 || t.name == target
  }

  function Entry(t: Table, fk: Constraint, name: Option<string>, casing: Casing): BackRelation
    requires fk.ForeignKey?
  {
    BackRelation(t.name, fk.columns, fk.refColumns, fk.onDelete, fk.onUpdate,
      RelationSegment(fk.columns, casing), IsOneToOne(t, fk.columns), name)
  }

  function EntryOf(t: Table, i: nat, target: string, casing: Casing): BackRelation
    requires i < |t.constraints| && PointsAt(t, i, target)
  {
    Entry(t, t.constraints[i], if Needed(t, target) then Some(NameOf(t, i, casing)) else None, casing)
  }

  function EntriesOf(t: Table, n: nat, target: string, casing: Casing): seq<BackRelation>
    requires n <= |t.constraints|
  {
    if n == 0 then []
    else EntriesOf(t, n - 1, target, casing) + if PointsAt(t, n - 1, target) then [EntryOf(t, n - 1, target, casing)]
      else []
  }

  function Entries(schema: seq<Table>, target: string, casing: Casing): seq<BackRelation> {
    if schema == [] then []
    else
      var last := schema[|schema| - 1];
      Entries(schema[..|schema| - 1], target, casing) + EntriesOf(last, |last.constraints|, target, casing)
  }

  method CountPointing(t: Table, target: string) returns (n: nat)
    ensures n == Pointing(t, |t.constraints|, target)
  {
    n := 0;
    for i := 0 to |t.constraints|
      invariant n == Pointing(t, i, target)
    {
      if t.constraints[i].ForeignKey? && t.constraints[i].refTable == target {
        n := n + 1;
      }
    }
  }

  lemma {:induction false} NonePointing(t: Table, n: nat, target: string, casing: Casing)
    requires n <= |t.constraints| && Pointing(t, n, target) == 0
    ensures EntriesOf(t, n, target, casing) == []
  {
    if n > 0 {
      NonePointing(t, n - 1, target, casing);
    }
  }

  /** `collect_back_relations`: the entries of every table, in schema and constraint order. */
  method CollectBackRelations(schema: seq<Table>, target: string, casing: Casing) returns (result: seq<BackRelation>)
    ensures result == Entries(schema, target, casing)
  {
    result := [];
    for i := 0 to |schema|
      invariant result == Entries(schema[..i], target, casing)
    {
      assert schema[..i + 1][..i] == schema[..i];
      var pointing := CountPointing(schema[i], target);
      if pointing == 0 {
        NonePointing(schema[i], |schema[i].constraints|, target, casing);
        assert result + [] == result;
      } else {
        var entries := CollectFrom(schema[i], target, pointing, casing);
        result := result + entries;
      }
    }
    assert schema[..|schema|] == schema;
  }

  /** The inner loop, over one source table. */
  method CollectFrom(t: Table, target: string, pointing: nat, casing: Casing) returns (entries: seq<BackRelation>)
    requires pointing == Pointing(t, |t.constraints|, target)
    ensures entries == EntriesOf(t, |t.constraints|, target, casing)
  {
    entries := [];
    var names := FkRelationNames(t, casing);
    var needed := pointing > 1 || t.name == target;
    for i := 0 to |t.constraints|
      invariant entries == EntriesOf(t, i, target, casing)
    {
      var c := t.constraints[i];
      if c.ForeignKey? && c.refTable == target {
        assert i in names;
        var name := if needed then Some(names[i]) else None;
        entries := entries + [Entry(t, c, name, casing)];
        NextEntry(t, i, target, casing, name);
      } else {
        NoNextEntry(t, i, target, casing);
      }
    }
  }

  lemma NextEntry(t: Table, i: nat, target: string, casing: Casing, name: Option<string>)
    requires i < |t.constraints| && PointsAt(t, i, target)
    requires name == if Pointing(t, |t.constraints|, target) > 1 || t.name == target then Some(NameOf(t, i, casing))
      else None
    ensures EntriesOf(t, i + 1, target, casing) == EntriesOf(t, i, target, casing)
      + [Entry(t, t.constraints[i], name, casing)]
  {
  }

  lemma NoNextEntry(t: Table, i: nat, target: string, casing: Casing)
    requires i < |t.constraints| && !PointsAt(t, i, target)
    ensures EntriesOf(t, i + 1, target, casing) == EntriesOf(t, i, target, casing)
  {
    assert EntriesOf(t, i, target, casing) + [] == EntriesOf(t, i, target, casing);
  }

  lemma {:induction false} EntryInTable(t: Table, n: nat, i: nat, target: string, casing: Casing)
    requires i < n <= |t.constraints| && PointsAt(t, i, target)
    ensures |EntriesOf(t, n, target, casing)| == Pointing(t, n, target)
    ensures Pointing(t, i, target) < Pointing(t, n, target)
    ensures EntriesOf(t, n, target, casing)[Pointing(t, i, target)] == EntryOf(t, i, target, casing)
    decreases n
  {
    if i < n - 1 {
      EntryInTable(t, n - 1, i, target, casing);
    } else {
      EntriesCounted(t, i, target, casing);
    }
  }

  /** How many entries the first `k` tables contribute. */
  function Before(schema: seq<Table>, k: nat, target: string): nat
    requires k <= |schema|
  {
    if k == 0 then 0 else Before(schema, k - 1, target) + Pointing(schema[k - 1], |schema[k - 1].constraints|, target)
  }

  lemma {:induction false} BeforeFront(schema: seq<Table>, k: nat, target: string)
    requires schema != [] && k < |schema|
    ensures Before(schema[..|schema| - 1], k, target) == Before(schema, k, target)
  {
    if k > 0 {
      BeforeFront(schema, k - 1, target);
    }
  }

  /** The returned list has one entry for every foreign key of every table that points at the target,
      at its own place, and a relation name given there is the one the forward side uses. */
  lemma {:induction false} BothEndsAgree(schema: seq<Table>, k: nat, i: nat, target: string, casing: Casing)
    requires k < |schema| && i < |schema[k].constraints| && PointsAt(schema[k], i, target)
    ensures |Entries(schema, target, casing)| == Before(schema, |schema|, target)
    ensures var at := Before(schema, k, target) + Pointing(schema[k], i, target);
      && at < |Entries(schema, target, casing)|
      && Entries(schema, target, casing)[at] == EntryOf(schema[k], i, target, casing)
      && (Entries(schema, target, casing)[at].relationName.Some? ==>
            Entries(schema, target, casing)[at].relationName.value == NameOf(schema[k], i, casing))
    decreases |schema|
  {
    var front, last := schema[..|schema| - 1], schema[|schema| - 1];
    BeforeFront(schema, |schema| - 1, target);
    EntriesTotal(front, target, casing);
    if k < |front| {
      BothEndsAgree(front, k, i, target, casing);
      BeforeFront(schema, k, target);
      EntriesCounted(last, |last.constraints|, target, casing);
    } else {
      EntryInTable(last, |last.constraints|, i, target, casing);
    }
  }

  lemma {:induction false} EntriesTotal(schema: seq<Table>, target: string, casing: Casing)
    ensures |Entries(schema, target, casing)| == Before(schema, |schema|, target)
  {
    if schema != [] {
      var last := schema[|schema| - 1];
      EntriesTotal(schema[..|schema| - 1], target, casing);
      EntriesCounted(last, |last.constraints|, target, casing);
      BeforeFront(schema, |schema| - 1, target);
    }
  }

  lemma {:induction false} EntriesCounted(t: Table, n: nat, target: string, casing: Casing)
    requires n <= |t.constraints|
    ensures |EntriesOf(t, n, target, casing)| == Pointing(t, n, target)
  {
    if n > 0 {
      EntriesCounted(t, n - 1, target, casing);
    }
  }

  predicate NoRepeats(s: seq<string>) {
    forall i, j :: 0 <= i < j < |s| ==> s[i] != s[j]
  }

  lemma {:induction false} SizeExactly(s: seq<string>)
    ensures |AsSet(s)| <= |s| && (|AsSet(s)| == |s| <==> NoRepeats(s))
  {
    if s != [] {
      var init, last := s[..|s| - 1], s[|s| - 1];
      SizeExactly(init);
      assert s == init + [last];
      assert AsSet(s) == AsSet(init) + {last};
      if last in init {
        var i :| 0 <= i < |init| && init[i] == last;
        assert s[i] == s[|s| - 1];
        assert AsSet(s) == AsSet(init);
      } else {
        assert forall i, j :: 0 <= i < j < |init| ==> (init[i] == init[j] <==> s[i] == s[j]);
      }
    }
  }

  /** The key test accepts exactly the foreign keys over the key's own set of columns if and only
      if the key lists no column twice. */
  lemma CoversExactly(key: seq<string>)
    ensures (forall fk :: Covers(key, fk) <==> AsSet(key) == AsSet(fk)) <==> NoRepeats(key)
  {
    SizeExactly(key);
    if NoRepeats(key) {
      forall fk ensures Covers(key, fk) <==> AsSet(key) == AsSet(fk) {
        if Covers(key, fk) {
          SubsetOfSameSize(AsSet(key), AsSet(fk));
        }
        if AsSet(key) == AsSet(fk) {
          assert forall i :: 0 <= i < |key| ==> key[i] in AsSet(key);
        }
      }
    } else {
      assert !Covers(key, key);
    }
  }

  /** A key that repeats a column passes for the wrong set. */
  lemma RepeatedKeyColumnMisleads()
    ensures Covers(["a", "a"], ["a", "b"]) && AsSet(["a", "a"]) != AsSet(["a", "b"])
  {
    assert AsSet(["a", "b"]) == {"a", "b"};
    assert "b" in AsSet(["a", "b"]) && "b" !in AsSet(["a", "a"]);
  }
}
