/** Identifiers of a generated file that holds a whole schema in one scope: tables claim theirs
    first, then every table's enums, then enum members as backends ask for them. */
module ScopeNames {
  import opened Common
  import opened Decimal

  // ---------------------------------------------------------------- claiming one binding

  /** The first of `preferred` followed by n, n + 1, … that is not taken. A candidate that is taken is
      dropped from the set, which later candidates cannot notice. */
  function FirstFree(preferred: string, taken: set<string>, n: nat): (r: string)
    ensures r !in taken
    ensures exists k :: n <= k && r == preferred + Numeral(k)
    decreases |taken|
  {
    var candidate := preferred + Numeral(n);
    if candidate !in taken then candidate
    else
      var r := FirstFree(preferred, taken - {candidate}, n + 1);
      LaterCandidate(preferred, n, r);
      r
  }

  lemma NumberedDiffer(preferred: string, m: nat, n: nat)
    requires m != n
    ensures preferred + Numeral(m) != preferred + Numeral(n)
  {
    if preferred + Numeral(m) == preferred + Numeral(n) {
      assert (preferred + Numeral(m))[|preferred|..] == Numeral(m);
      assert (preferred + Numeral(n))[|preferred|..] == Numeral(n);
      NumeralInjective(m, n);
    }
  }

  lemma LaterCandidate(preferred: string, n: nat, r: string)
    requires exists k :: n + 1 <= k && r == preferred + Numeral(k)
    ensures r != preferred + Numeral(n)
  {
    var k :| n + 1 <= k && r == preferred + Numeral(k);
    NumberedDiffer(preferred, k, n);
  }

  function Fresh(preferred: string, taken: set<string>): (r: string)
    ensures r !in taken && (preferred !in taken ==> r == preferred)
  {
    if preferred !in taken then preferred else FirstFree(preferred, taken, 2)
  }

  /** `claim_binding`: the loop stops because the taken set is finite and the candidates differ. */
  method ClaimBinding(preferred: string, taken: set<string>) returns (name: string, after: set<string>)
    ensures name == Fresh(preferred, taken) && name !in taken
    ensures after == taken + {name}
  {
    if preferred !in taken {
      return preferred, taken + {preferred};
    }
    var n: nat := 2;
    name := preferred + Numeral(n);
    ghost var left := taken;
    while name in taken
      invariant name == preferred + Numeral(n)
      invariant FirstFree(preferred, taken, 2) == FirstFree(preferred, left, n)
      invariant left <= taken
      invariant forall k: nat :: n <= k && preferred + Numeral(k) in taken ==> preferred + Numeral(k) in left
      decreases |left|
    {
      forall k: nat | n < k ensures preferred + Numeral(k) != name {
        NumberedDiffer(preferred, k, n);
      }
      left := left - {name};
      n := n + 1;
      name := preferred + Numeral(n);
    }
    after := taken + {name};
  }

  // ---------------------------------------------------------------- what can be named

  /** A table, and for each of its columns the enum it declares, if any. */
  datatype Table = Table(name: string, columns: seq<Option<string>>)

  datatype Named = TableKey(table: string) | EnumKey(table: string, name: string)
    | MemberKey(table: string, name: string, index: nat)

  /** `collect_table_enums`: the enums of a table, first declaration winning per name. */
  function EnumsOf(columns: seq<Option<string>>): (r: seq<string>)
    ensures forall e :: e in r <==> Some(e) in columns
    ensures forall i, j :: 0 <= i < j < |r| ==> r[i] != r[j]
  {
    if columns == [] then []
    else
      var before, last := EnumsOf(columns[..|columns| - 1]), columns[|columns| - 1];
      assert columns == columns[..|columns| - 1] + [last];
      if last.Some? && last.value !in before then before + [last.value] else before
  }

  method CollectTableEnums(columns: seq<Option<string>>) returns (result: seq<string>)
    ensures result == EnumsOf(columns)
  {
    var seen: set<string> := {};
    result := [];
    for i := 0 to |columns|
      invariant result == EnumsOf(columns[..i])
      invariant forall e :: e in seen <==> e in result
    {
      assert columns[..i + 1][..i] == columns[..i];
      if columns[i].Some? && columns[i].value !in seen {
        seen := seen + {columns[i].value};
        result := result + [columns[i].value];
      }
    }
    assert columns[..|columns|] == columns;
  }

  function Identifiers(table: Table, enumId: string -> string): set<string> {
    set e | e in EnumsOf(table.columns) :: enumId(e)
  }

  /** How many entries of the schema declare an enum under this identifier. */
  function Declarers(schema: seq<Table>, enumId: string -> string, id: string): nat {
    if schema == [] then 0
    else Declarers(schema[..|schema| - 1], enumId, id) + if id in Identifiers(schema[|schema| - 1], enumId) then 1
      else 0
  }

  /** The identifiers two or more entries declare. */
  function SharedIds(schema: seq<Table>, enumId: string -> string): set<string> {
    set t, e | t in schema && e in EnumsOf(t.columns) && Declarers(schema, enumId, enumId(e)) > 1 :: enumId(e)
  }

  lemma {:induction false} DeclaredSomewhere(schema: seq<Table>, enumId: string -> string, id: string)
    requires Declarers(schema, enumId, id) > 0
    ensures exists t, e :: t in schema && e in EnumsOf(t.columns) && enumId(e) == id
  {
    var last := schema[|schema| - 1];
    if id in Identifiers(last, enumId) {
      assert last in schema;
    } else {
      DeclaredSomewhere(schema[..|schema| - 1], enumId, id);
    }
  }

  function Count(counts: map<string, nat>, id: string): nat {
    if id in counts then counts[id] else 0
  }

  /** `identifiers_shared_across_tables`: exactly the identifiers two or more entries declare. */
  method IdentifiersSharedAcrossTables(schema: seq<Table>, enumId: string -> string) returns (shared: set<string>)
    ensures shared == SharedIds(schema, enumId)
    ensures forall id :: id in shared <==> Declarers(schema, enumId, id) > 1
  {
    var counts: map<string, nat> := map[];
    for i := 0 to |schema|
      invariant forall id :: Count(counts, id) == Declarers(schema[..i], enumId, id)
    {
      assert schema[..i + 1][..i] == schema[..i];
      var declared := Identifiers(schema[i], enumId);
      counts := Counted(counts, declared);
    }
    assert schema[..|schema|] == schema;
    shared := set id | id in counts && counts[id] > 1;
    assert forall id :: id in shared <==> Count(counts, id) > 1;
    forall id | id in shared ensures id in SharedIds(schema, enumId) {
      DeclaredSomewhere(schema, enumId, id);
    }
  }

  /** One pass of the inner loop: every declared identifier counts once more. */
  method Counted(counts: map<string, nat>, declared: set<string>) returns (r: map<string, nat>)
    ensures forall id :: Count(r, id) == Count(counts, id) + if id in declared then 1 else 0
  {
    r := counts;
    var left := declared;
    while left != {}
      invariant left <= declared
      invariant forall id :: Count(r, id) == Count(counts, id) + if id in declared && id !in left then 1 else 0
      decreases |left|
    {
      var id :| id in left;
      r := r[id := Count(r, id) + 1];
      left := left - {id};
    }
  }

  // ---------------------------------------------------------------- the scope as a value

  datatype Scope = Scope(names: map<Named, string>, taken: set<string>)

  /** Distinct things have distinct identifiers, and the taken ones are exactly those handed out. */
  ghost predicate Coherent(s: Scope) {
    && (forall a, b :: a in s.names && b in s.names && s.names[a] == s.names[b] ==> a == b)
    && s.taken == s.names.Values
  }

  /** `claim`: the first claim for a key stands. */
  function Claim(s: Scope, key: Named, natural: string): Scope {
    if key in s.names then s
    else var name := Fresh(natural, s.taken); Scope(s.names[key := name], s.taken + {name})
  }

  ghost predicate Extends(after: Scope, before: Scope) {
    forall k :: k in before.names ==> k in after.names && after.names[k] == before.names[k]
  }

  lemma ClaimKeeps(s: Scope, key: Named, natural: string)
    requires Coherent(s)
    ensures Coherent(Claim(s, key, natural)) && Extends(Claim(s, key, natural), s)
    ensures key in Claim(s, key, natural).names
  {
    var r := Claim(s, key, natural);
    if key !in s.names {
      var name := r.names[key];
      assert r.names.Values == s.names.Values + {name} by {
        assert forall k :: k in s.names ==> r.names[k] == s.names[k];
      }
    }
  }

  function ClaimTables(s: Scope, names: seq<string>, tableId: string -> string): Scope {
    if names == [] then s
    else var last := names[|names| - 1];
         Claim(ClaimTables(s, names[..|names| - 1], tableId), TableKey(last), tableId(last))
  }

  /** An enum whose bare identifier is shared or already taken is qualified with its table's name. */
  function EnumNatural(s: Scope, table: string, bare: string, shared: set<string>): string
    requires TableKey(table) in s.names
  {
    if bare in shared || bare in s.taken then s.names[TableKey(table)] + bare else bare
  }

  /** Claims the enums of one table. */
  function ClaimEnums(s: Scope, table: string, enums: seq<string>, enumId: string -> string,
      shared: set<string>): (r: Scope)
    requires TableKey(table) in s.names
    ensures Extends(r, s)
  {
    if enums == [] then s
    else
      var before := ClaimEnums(s, table, enums[..|enums| - 1], enumId, shared);
      var e := enums[|enums| - 1];
      Claim(before, EnumKey(table, e), EnumNatural(before, table, enumId(e), shared))
  }

  predicate TablesNamed(s: Scope, schema: seq<Table>) {
    forall i :: 0 <= i < |schema| ==> TableKey(schema[i].name) in s.names
  }

  function ClaimAllEnums(s: Scope, schema: seq<Table>, enumId: string -> string, shared: set<string>): (r: Scope)
    requires TablesNamed(s, schema)
    ensures Extends(r, s)
  {
    if schema == [] then s
    else
      var before, last := ClaimAllEnums(s, schema[..|schema| - 1], enumId, shared), schema[|schema| - 1];
      ClaimEnums(before, last.name, EnumsOf(last.columns), enumId, shared)
  }

  function TableNames(schema: seq<Table>): seq<string> {
    seq(|schema|, i requires 0 <= i < |schema| => schema[i].name)
  }

  const NO_NAMES := Scope(map[], {})

  ghost function Tables(schema: seq<Table>, tableId: string -> string): (r: Scope)
    ensures TablesNamed(r, schema)
  {
    var r := ClaimTables(NO_NAMES, TableNames(schema), tableId);
    TablesClaimed(TableNames(schema), tableId);
    assert forall i :: 0 <= i < |schema| ==> TableNames(schema)[i] == schema[i].name;
    r
  }

  /** Every listed table is named, nothing else is, and the scope is coherent. */
  lemma {:induction false} TablesClaimed(names: seq<string>, tableId: string -> string)
    ensures var r := ClaimTables(NO_NAMES, names, tableId);
      Coherent(r) && forall k :: k in r.names <==> k.TableKey? && k.table in names
  {
    if names != [] {
      var last := names[|names| - 1];
      TablesClaimed(names[..|names| - 1], tableId);
      assert names == names[..|names| - 1] + [last];
      ClaimKeeps(ClaimTables(NO_NAMES, names[..|names| - 1], tableId), TableKey(last), tableId(last));
    }
  }

  lemma {:induction false} EnumsClaimed(s: Scope, table: string, enums: seq<string>, enumId: string -> string,
      shared: set<string>)
    requires Coherent(s) && TableKey(table) in s.names
    ensures var r := ClaimEnums(s, table, enums, enumId, shared);
      && Coherent(r)
      && (forall k :: k in r.names <==> k in s.names || (k.EnumKey? && k.table == table && k.name in enums))
  {
    if enums != [] {
      var before, e := ClaimEnums(s, table, enums[..|enums| - 1], enumId, shared), enums[|enums| - 1];
      EnumsClaimed(s, table, enums[..|enums| - 1], enumId, shared);
      assert enums == enums[..|enums| - 1] + [e];
      ClaimKeeps(before, EnumKey(table, e), EnumNatural(before, table, enumId(e), shared));
    }
  }

  /** Table `t` of the schema declares enum `e`. */
  ghost predicate Declares(schema: seq<Table>, t: string, e: string) {
    exists i :: 0 <= i < |schema| && schema[i].name == t && Some(e) in schema[i].columns
  }

  lemma {:induction false} AllEnumsClaimed(s: Scope, schema: seq<Table>, enumId: string -> string, shared: set<string>)
    requires Coherent(s) && TablesNamed(s, schema)
    ensures var r := ClaimAllEnums(s, schema, enumId, shared);
      && Coherent(r)
      && (forall k :: k in r.names <==> k in s.names || (k.EnumKey? && Declares(schema, k.table, k.name)))
  {
    if schema != [] {
      var init, last := schema[..|schema| - 1], schema[|schema| - 1];
      AllEnumsClaimed(s, init, enumId, shared);
      EnumsClaimed(ClaimAllEnums(s, init, enumId, shared), last.name, EnumsOf(last.columns), enumId, shared);
      forall t, e
        ensures Declares(schema, t, e) <==> Declares(init, t, e) || (last.name == t && Some(e) in last.columns)
      {
        DeclaresLast(schema, t, e);
      }
    }
  }

  lemma DeclaresLast(schema: seq<Table>, t: string, e: string)
    requires schema != []
    ensures var last := schema[|schema| - 1];
      Declares(schema, t, e) <==> Declares(schema[..|schema| - 1], t, e) || (last.name == t && Some(e) in last.columns)
  {
    var init := schema[..|schema| - 1];
    if Declares(init, t, e) {
      var i :| 0 <= i < |init| && init[i].name == t && Some(e) in init[i].columns;
      assert schema[i] == init[i];
    }
    if Declares(schema, t, e) {
      var i :| 0 <= i < |schema| && schema[i].name == t && Some(e) in schema[i].columns;
      if i < |init| {
        assert init[i] == schema[i];
      }
    }
  }

  /** `collect`. */
  ghost function Collected(schema: seq<Table>, tableId: string -> string, enumId: string -> string): Scope {
    ClaimAllEnums(Tables(schema, tableId), schema, enumId, SharedIds(schema, enumId))
  }

  // ---------------------------------------------------------------- the promises

  /** A later `claim_member` call. */
  datatype MemberClaim = MemberClaim(table: string, enumName: string, index: nat, natural: string)

  function ClaimMembers(s: Scope, claims: seq<MemberClaim>): Scope
    decreases claims
  {
    if claims == [] then s
    else var c := claims[0]; ClaimMembers(Claim(s, MemberKey(c.table, c.enumName, c.index), c.natural), claims[1..])
  }

  lemma {:induction false} MembersKeep(s: Scope, claims: seq<MemberClaim>)
    requires Coherent(s)
    ensures Coherent(ClaimMembers(s, claims)) && Extends(ClaimMembers(s, claims), s)
    ensures forall i :: 0 <= i < |claims| ==>
      MemberKey(claims[i].table, claims[i].enumName, claims[i].index) in ClaimMembers(s, claims).names
    decreases claims
  {
    if claims != [] {
      var c := claims[0];
      var next := Claim(s, MemberKey(c.table, c.enumName, c.index), c.natural);
      ClaimKeeps(s, MemberKey(c.table, c.enumName, c.index), c.natural);
      MembersKeep(next, claims[1..]);
      forall i | 0 <= i < |claims|
        ensures MemberKey(claims[i].table, claims[i].enumName, claims[i].index) in ClaimMembers(s, claims).names
      {
        if i > 0 {
          assert claims[i] == claims[1..][i - 1];
        }
      }
    }
  }

  /** After collecting a schema and any run of member claims, no two things share an identifier and
      every table, every declared enum and every claimed member has one. */
  lemma IdentifiersAreDistinct(schema: seq<Table>, tableId: string -> string, enumId: string -> string,
      claims: seq<MemberClaim>)
    ensures var names := ClaimMembers(Collected(schema, tableId, enumId), claims).names;
      && (forall a, b :: a in names && b in names && a != b ==> names[a] != names[b])
      && (forall i :: 0 <= i < |schema| ==> TableKey(schema[i].name) in names)
      && (forall i, e :: 0 <= i < |schema| && Some(e) in schema[i].columns ==> EnumKey(schema[i].name, e) in names)
      && (forall i :: 0 <= i < |claims| ==> MemberKey(claims[i].table, claims[i].enumName, claims[i].index) in names)
  {
    TablesClaimed(TableNames(schema), tableId);
    AllEnumsClaimed(Tables(schema, tableId), schema, enumId, SharedIds(schema, enumId));
    MembersKeep(Collected(schema, tableId, enumId), claims);
    forall i, e | 0 <= i < |schema| && Some(e) in schema[i].columns
      ensures Declares(schema, schema[i].name, e)
    {
    }
  }

  /** Two schemas listing the same table names give their tables the same identifiers, whatever
      enums they declare and whatever members are claimed later. */
  lemma TableNamesIgnoreEnums(schema: seq<Table>, other: seq<Table>, tableId: string -> string,
      enumId: string -> string, enumId': string -> string,
      claims: seq<MemberClaim>, claims': seq<MemberClaim>, t: string)
    requires TableNames(schema) == TableNames(other) && t in TableNames(schema)
    ensures var a, b := ClaimMembers(Collected(schema, tableId, enumId), claims).names,
                        ClaimMembers(Collected(other, tableId, enumId'), claims').names;
      TableKey(t) in a && TableKey(t) in b && a[TableKey(t)] == b[TableKey(t)]
  {
    TablesClaimed(TableNames(schema), tableId);
    assert TableKey(t) in Tables(schema, tableId).names;
    assert Tables(schema, tableId) == Tables(other, tableId);
    AllEnumsClaimed(Tables(schema, tableId), schema, enumId, SharedIds(schema, enumId));
    AllEnumsClaimed(Tables(other, tableId), other, enumId', SharedIds(other, enumId'));
    MembersKeep(Collected(schema, tableId, enumId), claims);
    MembersKeep(Collected(other, tableId, enumId'), claims');
  }

  ghost predicate KeepsNatural(names: seq<string>, tableId: string -> string) {
    var r := ClaimTables(NO_NAMES, names, tableId).names;
    forall t :: t in names ==> TableKey(t) in r && r[TableKey(t)] == tableId(t)
  }

  ghost predicate NamesApart(names: seq<string>, tableId: string -> string) {
    forall t, u :: t in names && u in names && tableId(t) == tableId(u) ==> t == u
  }

  /** A table keeps its natural name, as promised, exactly when no two table names fold onto one
      identifier. */
  lemma NaturalTableNames(names: seq<string>, tableId: string -> string)
    ensures KeepsNatural(names, tableId) <==> NamesApart(names, tableId)
  {
    TablesClaimed(names, tableId);
    if NamesApart(names, tableId) {
      ApartKeepsNatural(names, tableId);
    }
    if KeepsNatural(names, tableId) {
      var r := ClaimTables(NO_NAMES, names, tableId).names;
      forall t, u | t in names && u in names && tableId(t) == tableId(u) ensures t == u {
        assert r[TableKey(t)] == r[TableKey(u)];
      }
    }
  }

  lemma {:induction false} ApartKeepsNatural(names: seq<string>, tableId: string -> string)
    requires NamesApart(names, tableId)
    ensures KeepsNatural(names, tableId)
  {
    if names != [] {
      var init, last := names[..|names| - 1], names[|names| - 1];
      assert names == init + [last];
      ApartKeepsNatural(init, tableId);
      TablesClaimed(init, tableId);
      var before := ClaimTables(NO_NAMES, init, tableId);
      if last !in init {
        assert tableId(last) !in before.taken;
      }
    }
  }

  /** Under non-empty table identifiers, an enum carries its bare identifier only if that
      identifier is not shared. */
  ghost predicate Qualified(s: Scope, enumId: string -> string, shared: set<string>) {
    && (forall k :: k in s.names && k.TableKey? ==> s.names[k] != "")
    && (forall k :: k in s.names && k.EnumKey? && s.names[k] == enumId(k.name) ==> enumId(k.name) !in shared)
  }

  lemma FreshIsNoShorter(preferred: string, taken: set<string>)
    ensures |Fresh(preferred, taken)| >= |preferred|
  {
  }

  /** An enum that is claimed for the first time gets its bare identifier exactly while no other table
      declares the same one and nothing holds it yet. */
  lemma BareExactly(s: Scope, table: string, e: string, enumId: string -> string, shared: set<string>)
    requires TableKey(table) in s.names && s.names[TableKey(table)] != "" && EnumKey(table, e) !in s.names
    ensures
      var r := Claim(s, EnumKey(table, e), EnumNatural(s, table, enumId(e), shared));
      r.names[EnumKey(table, e)] == enumId(e) <==> enumId(e) !in shared && enumId(e) !in s.taken
  {
    FreshIsNoShorter(EnumNatural(s, table, enumId(e), shared), s.taken);
  }

  lemma {:induction false} TablesQualified(names: seq<string>, tableId: string -> string, enumId: string -> string,
      shared: set<string>)
    requires forall t :: t in names ==> tableId(t) != ""
    ensures Qualified(ClaimTables(NO_NAMES, names, tableId), enumId, shared)
  {
    if names != [] {
      TablesQualified(names[..|names| - 1], tableId, enumId, shared);
      FreshIsNoShorter(tableId(names[|names| - 1]), ClaimTables(NO_NAMES, names[..|names| - 1], tableId).taken);
    }
  }

  lemma {:induction false} EnumsQualified(s: Scope, table: string, enums: seq<string>, enumId: string -> string,
      shared: set<string>)
    requires TableKey(table) in s.names && Qualified(s, enumId, shared)
    ensures Qualified(ClaimEnums(s, table, enums, enumId, shared), enumId, shared)
  {
    if enums != [] {
      EnumsQualified(s, table, enums[..|enums| - 1], enumId, shared);
      var before := ClaimEnums(s, table, enums[..|enums| - 1], enumId, shared);
      FreshIsNoShorter(EnumNatural(before, table, enumId(enums[|enums| - 1]), shared), before.taken);
    }
  }

  lemma {:induction false} AllEnumsQualified(s: Scope, schema: seq<Table>, enumId: string -> string,
      shared: set<string>)
    requires TablesNamed(s, schema) && Qualified(s, enumId, shared)
    ensures Qualified(ClaimAllEnums(s, schema, enumId, shared), enumId, shared)
  {
    if schema != [] {
      var init, last := schema[..|schema| - 1], schema[|schema| - 1];
      AllEnumsQualified(s, init, enumId, shared);
      EnumsQualified(ClaimAllEnums(s, init, enumId, shared), last.name, EnumsOf(last.columns), enumId, shared);
    }
  }

  /** An enum keeps its bare identifier only while no other table declares the same one. */
  lemma BareEnumsAreUnshared(schema: seq<Table>, tableId: string -> string, enumId: string -> string, t: string,
      e: string)
    requires forall n :: n in TableNames(schema) ==> tableId(n) != ""
    requires EnumKey(t, e) in Collected(schema, tableId, enumId).names
    requires Collected(schema, tableId, enumId).names[EnumKey(t, e)] == enumId(e)
    ensures Declarers(schema, enumId, enumId(e)) <= 1
  {
    if Declarers(schema, enumId, enumId(e)) > 1 {
      DeclaredSomewhere(schema, enumId, enumId(e));
    }
    TablesQualified(TableNames(schema), tableId, enumId, SharedIds(schema, enumId));
    AllEnumsQualified(Tables(schema, tableId), schema, enumId, SharedIds(schema, enumId));
  }

  // ---------------------------------------------------------------- the object

  class ScopeNames {
    var names: map<Named, string>
    var taken: set<string>

    function Value(): Scope
      reads this
    {
      Scope(names, taken)
    }

    constructor Collect(schema: seq<Table>, tableId: string -> string, enumId: string -> string)
      ensures Value() == Collected(schema, tableId, enumId)
    {
      names, taken := map[], {};
      new;
      ClaimTableNames(schema, tableId);
      ghost var tables := Tables(schema, tableId);
      var shared := IdentifiersSharedAcrossTables(schema, enumId);
      for i := 0 to |schema|
        invariant TablesNamed(tables, schema[..i])
        invariant Value() == ClaimAllEnums(tables, schema[..i], enumId, shared)
      {
        assert schema[..i + 1][..i] == schema[..i];
        assert TableKey(schema[i].name) in tables.names;
        ClaimEnumsOf(schema[i], enumId, shared);
      }
      assert schema[..|schema|] == schema;
    }

    /** The first loop of `collect`. */
    method ClaimTableNames(schema: seq<Table>, tableId: string -> string)
      requires Value() == NO_NAMES
      modifies this
      ensures Value() == Tables(schema, tableId)
    {
      ghost var all := TableNames(schema);
      for i := 0 to |schema|
        invariant Value() == ClaimTables(NO_NAMES, all[..i], tableId)
      {
        assert all[..i + 1][..i] == all[..i];
        ClaimKey(TableKey(schema[i].name), tableId(schema[i].name));
      }
      assert all[..|schema|] == all;
    }

    /** The inner loop of `collect`. */
    method ClaimEnumsOf(table: Table, enumId: string -> string, shared: set<string>)
      requires TableKey(table.name) in names
      modifies this
      ensures Value() == ClaimEnums(old(Value()), table.name, EnumsOf(table.columns), enumId, shared)
    {
      var enums := CollectTableEnums(table.columns);
      for i := 0 to |enums|
        invariant Value() == ClaimEnums(old(Value()), table.name, enums[..i], enumId, shared)
      {
        assert enums[..i + 1][..i] == enums[..i];
        var bare := enumId(enums[i]);
        var natural := if bare in shared || bare in taken then names[TableKey(table.name)] + bare else bare;
        ClaimKey(EnumKey(table.name, enums[i]), natural);
      }
      assert enums[..|enums|] == enums;
    }

    method ClaimMember(table: string, enumName: string, index: nat, natural: string)
      modifies this
      ensures Value() == Claim(old(Value()), MemberKey(table, enumName, index), natural)
    {
      ClaimKey(MemberKey(table, enumName, index), natural);
    }

    method ClaimKey(key: Named, natural: string)
      modifies this
      ensures Value() == Claim(old(Value()), key, natural)
    {
      if key !in names {
        var name, after := ClaimBinding(natural, taken);
        taken := after;
        names := names[key := name];
      }
    }

    /** `table`: the identifier of a table, `None` for one outside the schema. */
    method TableName(table: string) returns (r: Option<string>)
      ensures r.Some? <==> TableKey(table) in names
      ensures r.Some? ==> r.value == names[TableKey(table)]
    {
      r := if TableKey(table) in names then Some(names[TableKey(table)]) else None;
    }
  }
}
