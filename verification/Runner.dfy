/** One run of the embedded migration runner on a quiet database. A transaction is a private copy that
    is committed or thrown away. */
module Runner {
  import opened Common
  import opened SqlBlob

  const I32_MAX: int := 0x7fff_ffff

  /** `statements` are what `split_sql_blob` yields for the blob of the connection's backend. */
  datatype Migration = Migration(version: nat, id: string, statements: seq<string>)

  type Rows = map<int, string>

  function FromBlob(version: nat, id: string, blob: string): Migration {
    Migration(version, id, SplitSqlBlob(blob))
  }

  /** A migration embedded by the macro runs the statements the macro was given, blanks dropped. */
  lemma EmbeddedStatements(version: nat, id: string, sqls: seq<string>)
    requires forall i :: 0 <= i < |sqls| ==> NulFree(sqls[i])
    ensures FromBlob(version, id, Blob(sqls)).statements == NonEmpty(sqls)
  {
    BlobRoundTrip(sqls);
  }

  predicate IsMax(rows: Rows, v: int) {
    v in rows && forall w :: w in rows ==> w <= v
  }

  lemma {:induction false} MaxExists(rows: Rows)
    requires rows != map[]
    ensures exists v :: IsMax(rows, v)
    decreases |rows|
  {
    assert (forall k :: k !in rows) ==> rows == map[];
    var x :| x in rows;
    var rest := rows - {x};
    if rest == map[] {
      assert forall w :: w in rows && w != x ==> w in rest;
      assert IsMax(rows, x);
    } else {
      MaxExists(rest);
      var y :| IsMax(rest, y);
      assert forall w :: w in rows && w != x ==> w in rest;
      assert IsMax(rows, if x < y then y else x);
    }
  }

  /** `SELECT MAX(version)` read back as `i32`: anything that does not decode counts as 0. */
  ghost function CurrentVersion(rows: Rows): (v: nat)
    ensures (forall w :: w in rows ==> w <= I32_MAX) ==> forall w :: w in rows ==> w <= v
  {
    if rows == map[] then 0 else
    MaxExists(rows);
    var m :| IsMax(rows, m);
    if 0 <= m <= I32_MAX then m else 0
  }

  lemma CurrentVersionIsMax(rows: Rows, m: int)
    requires IsMax(rows, m)
    ensures CurrentVersion(rows) == if 0 <= m <= I32_MAX then m else 0
  {
  }

  /** `collect_version_ids`: the rows whose version decodes as a non-negative `i32`. */
  function VersionIds(rows: Rows): map<nat, string> {
    map v | v in rows && 0 <= v <= I32_MAX :: rows[v]
  }

  predicate IdMismatch(ids: map<nat, string>, m: Migration) {
    m.version in ids && m.id != "" && ids[m.version] != "" && ids[m.version] != m.id
  }

  /** When every stored version decodes, a migration that is not skipped has no row to compare its
      id with: the divergence check cannot fire on the rows the version was read from. */
  lemma IdCheckIsDead(rows: Rows, m: Migration)
    requires forall w :: w in rows ==> w <= I32_MAX
    requires m.version > CurrentVersion(rows)
    ensures m.version !in VersionIds(rows) && !IdMismatch(VersionIds(rows), m)
  {
  }

  function Flatten(ms: seq<Migration>): seq<string> {
    if ms == [] then [] else ms[0].statements + Flatten(ms[1..])
  }

  lemma {:induction false} FlattenConcat(xs: seq<Migration>, ys: seq<Migration>)
    ensures Flatten(xs + ys) == Flatten(xs) + Flatten(ys)
  {
    if xs == [] {
      assert xs + ys == ys;
    } else {
      assert (xs + ys)[1..] == xs[1..] + ys;
      FlattenConcat(xs[1..], ys);
    }
  }

  /** The migrations a run at `version` does not skip, in list order. */
  function Pending(ms: seq<Migration>, version: nat): seq<Migration> {
    if ms == [] then [] else
    var rest := Pending(ms[1..], version);
    if version >= ms[0].version then rest else [ms[0]] + rest
  }

  /** The rows a list of migrations inserts; of two with one version the later stands. */
  function RowsOf(ms: seq<Migration>): Rows {
    if ms == [] then map[] else map[ms[0].version := ms[0].id] + RowsOf(ms[1..])
  }

  lemma FlattenSnoc(ms: seq<Migration>, m: Migration)
    ensures Flatten(ms + [m]) == Flatten(ms) + m.statements
  {
    FlattenConcat(ms, [m]);
    assert [m][1..] == [] && Flatten([m]) == m.statements + [];
  }

  // ---------------------------------------------------------------- one run

  datatype RunError = SetupFailed | StatementRejected(sql: string) | DuplicateVersion(version: nat)
    | Divergence(version: nat) | CommitFailed

  /** Which statement the database refuses, given what the transaction already ran. */
  type Refusal = (seq<string>, string) -> bool

  function FirstRejected(sqls: seq<string>, log: seq<string>, rejects: Refusal): Option<string>
    decreases |sqls|
  {
    if sqls == [] then None
    else if rejects(log, sqls[0]) then Some(sqls[0])
    else FirstRejected(sqls[1..], log + [sqls[0]], rejects)
  }

  /** Run statements one after another inside a transaction, up to the first refused one. */
  method Execute(sqls: seq<string>, log: seq<string>, rejects: Refusal) returns (r: Result<seq<string>, RunError>)
    ensures r == match FirstRejected(sqls, log, rejects)
                 case None => Ok(log + sqls)
                 case Some(sql) => Err(StatementRejected(sql))
  {
    var txn := log;
    for j := 0 to |sqls|
      invariant txn == log + sqls[..j]
      invariant FirstRejected(sqls, log, rejects) == FirstRejected(sqls[j..], txn, rejects)
    {
      if rejects(txn, sqls[j]) {
        return Err(StatementRejected(sqls[j]));
      }
      assert sqls[j..][1..] == sqls[j + 1..];
      txn := txn + [sqls[j]];
    }
    assert sqls[..|sqls|] == sqls;
    return Ok(txn);
  }

  datatype Txn = Txn(rows: Rows, log: seq<string>)

  /** One migration inside the transaction: its statements, then its version row. */
  function ApplyOne(m: Migration, txn: Txn, rejects: Refusal): Result<Txn, RunError> {
    match FirstRejected(m.statements, txn.log, rejects)
    case Some(sql) => Err(StatementRejected(sql))
    case None =>
      if m.version in txn.rows then Err(DuplicateVersion(m.version))
      else Ok(Txn(txn.rows[m.version := m.id], txn.log + m.statements))
  }

  method Apply(m: Migration, txn: Txn, rejects: Refusal) returns (r: Result<Txn, RunError>)
    ensures r == ApplyOne(m, txn, rejects)
  {
    var executed := Execute(m.statements, txn.log, rejects);
    if executed.Err? {
      return Err(executed.error);
    }
    if m.version in txn.rows {
      return Err(DuplicateVersion(m.version));
    }
    return Ok(Txn(txn.rows[m.version := m.id], executed.value));
  }

  /** A whole list: skip what the version covers, compare ids, run the rest, stop at a failure. */
  function ApplyAll(ms: seq<Migration>, version: nat, ids: map<nat, string>, txn: Txn,
      rejects: Refusal): Result<Txn, RunError>
    decreases |ms|
  {
    if ms == [] then Ok(txn)
    else if version >= ms[0].version then ApplyAll(ms[1..], version, ids, txn, rejects)
    else if IdMismatch(ids, ms[0]) then Err(Divergence(ms[0].version))
    else
      match ApplyOne(ms[0], txn, rejects)
      case Err(e) => Err(e)
      case Ok(t) => ApplyAll(ms[1..], version, ids, t, rejects)
  }

  /** The apply loop. */
  method ApplyPending(migrations: seq<Migration>, version: nat, ids: map<nat, string>, txn: Txn, rejects: Refusal)
    returns (r: Result<Txn, RunError>)
    ensures r == ApplyAll(migrations, version, ids, txn, rejects)
  {
    var t := txn;
    for i := 0 to |migrations|
      invariant ApplyAll(migrations, version, ids, txn, rejects) == ApplyAll(migrations[i..], version, ids, t, rejects)
    {
      var m := migrations[i];
      assert migrations[i..][1..] == migrations[i + 1..];
      if version >= m.version {
        continue;
      }
      if IdMismatch(ids, m) {
        return Err(Divergence(m.version));
      }
      var applied := Apply(m, t, rejects);
      if applied.Err? {
        return Err(applied.error);
      }
      t := applied.value;
    }
    return Ok(t);
  }

  /** A list that goes through has run exactly the pending migrations, in order, and stored exactly
      their rows. */
  lemma {:induction false} RunsExactlyPending(ms: seq<Migration>, version: nat, ids: map<nat, string>, txn: Txn,
      rejects: Refusal)
    requires ApplyAll(ms, version, ids, txn, rejects).Ok?
    ensures var pending := Pending(ms, version);
      ApplyAll(ms, version, ids, txn, rejects).value == Txn(txn.rows + RowsOf(pending), txn.log + Flatten(pending))
    decreases |ms|
  {
    if ms == [] {
      assert txn.rows + map[] == txn.rows && txn.log + [] == txn.log;
    } else if version >= ms[0].version {
      RunsExactlyPending(ms[1..], version, ids, txn, rejects);
    } else {
      RunsExactlyPending(ms[1..], version, ids, ApplyOne(ms[0], txn, rejects).value, rejects);
      EffectsInFront(txn, ms[0], Pending(ms[1..], version));
    }
  }

  lemma EffectsInFront(txn: Txn, m: Migration, rest: seq<Migration>)
    ensures txn.rows[m.version := m.id] + RowsOf(rest) == txn.rows + RowsOf([m] + rest)
    ensures txn.log + m.statements + Flatten(rest) == txn.log + Flatten([m] + rest)
  {
    assert ([m] + rest)[1..] == rest;
    assert txn.log + m.statements + Flatten(rest) == txn.log + (m.statements + Flatten(rest));
  }

  lemma {:induction false} DivergenceNeedsMismatch(ms: seq<Migration>, version: nat, ids: map<nat, string>, txn: Txn,
      rejects: Refusal)
    requires ApplyAll(ms, version, ids, txn, rejects).Err? && ApplyAll(ms, version, ids, txn, rejects).error.Divergence?
    ensures exists m :: m in ms && version < m.version && IdMismatch(ids, m)
    decreases |ms|
  {
    if version < ms[0].version && IdMismatch(ids, ms[0]) {
      assert ms[0] in ms;
    } else {
      var t := if version >= ms[0].version then txn else ApplyOne(ms[0], txn, rejects).value;
      DivergenceNeedsMismatch(ms[1..], version, ids, t, rejects);
    }
  }

  class Database {
    var hasVersionTable: bool
    var rows: Rows
    var log: seq<string>

    constructor ()
      ensures !hasVersionTable && rows == map[] && log == []
    {
      hasVersionTable, rows, log := false, map[], [];
    }

    /** Largest stored version, decoded. */
    method ReadVersion() returns (v: nat)
      ensures v == CurrentVersion(rows)
    {
      var best: int := -1;
      var todo := rows.Keys;
      while todo != {}
        invariant todo <= rows.Keys
        invariant todo == rows.Keys ==> best == -1
        invariant todo != rows.Keys ==> best in rows.Keys
        invariant forall w :: w in rows.Keys && w !in todo ==> w <= best
        decreases |todo|
      {
        assert (forall k :: k !in todo) ==> todo == {};
        var w :| w in todo;
        if todo == rows.Keys || w > best {
          best := w;
        }
        todo := todo - {w};
      }
      if rows != map[] {
        assert rows.Keys != {} by { var k :| k in rows; }
        assert IsMax(rows, best);
        CurrentVersionIsMax(rows, best);
      }
      v := if 0 <= best <= I32_MAX then best else 0;
    }

    /** `run_embedded_migrations_with_options` on a quiet database. A failed run leaves nothing but
        the version table; a successful one has run exactly the pending migrations, in order. */
    method Run(migrations: seq<Migration>, rejects: Refusal, setupOk: bool, commitOk: bool)
      returns (r: Result<(), RunError>)
      modifies this
      ensures
        var applied := ApplyAll(migrations, CurrentVersion(old(rows)), VersionIds(old(rows)), Txn(old(rows), old(log)),
          rejects);
        r == if !setupOk then Err(SetupFailed)
             else if applied.Err? then Err(applied.error)
             else if commitOk then Ok(()) else Err(CommitFailed)
      ensures r.Err? ==> rows == old(rows) && log == old(log)
      ensures r.Ok? ==>
                var pending := Pending(migrations, CurrentVersion(old(rows)));
                && log == old(log) + Flatten(pending)
                && rows == old(rows) + RowsOf(pending)
      ensures hasVersionTable == (old(hasVersionTable) || setupOk)
      ensures r.Err? && r.error.Divergence? ==> exists w :: w in old(rows) && w > I32_MAX
    {
      if !setupOk {
        return Err(SetupFailed);
      }
      hasVersionTable := true;
      var version := ReadVersion();
      var ids := VersionIds(rows);
      var applied := ApplyPending(migrations, version, ids, Txn(rows, log), rejects);
      if applied.Err? {
        if applied.error.Divergence? && forall w :: w in rows ==> w <= I32_MAX {
          DivergenceNeedsMismatch(migrations, version, ids, Txn(rows, log), rejects);
          ghost var m :| m in migrations && version < m.version && IdMismatch(ids, m);
          IdCheckIsDead(rows, m);
        }
        return Err(applied.error);
      }
      if !commitOk {
        return Err(CommitFailed);
      }
      RunsExactlyPending(migrations, version, ids, Txn(rows, log), rejects);
      rows, log := applied.value.rows, applied.value.log;
      return Ok(());
    }
  }
}
