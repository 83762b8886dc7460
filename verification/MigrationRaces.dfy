/** Any number of migration runs interleaved, crashing and being refused on one database. The only
    guard between them is the primary key on the version column. */
module MigrationRaces {
  import opened Runner

  datatype Phase = Idle | Ready | Began | Versioned | Looping | Finished | Failed

  /** A statement in the log together with the run that committed it. */
  datatype Entry = Entry(owner: nat, sql: string)

  /** One run. Its build embeds the first `len` migrations of the history. `base` (how many rows the
      version was read from) and `executed` (statements sent) are history only: no step reads them. */
  datatype Proc = Proc(
    len: nat, phase: Phase, snapshot: Rows, version: nat, ids: map<nat, string>,
    next: nat, at: nat, txnRows: Rows, txnLog: seq<Entry>, base: nat, executed: nat)

  datatype State = State(hasTable: bool, rows: Rows, log: seq<Entry>, procs: seq<Proc>)

  /** `newest` lets a read inside the transaction see the rows committed by now instead of those at
      its start, so both snapshot and read-committed isolation are covered. `ok` is the database's
      answer. */
  datatype Event =
    | SetUp(p: nat, ok: bool)
    | Begin(p: nat)
    | ReadMax(p: nat, newest: bool)
    | ReadIds(p: nat, newest: bool)
    | Advance(p: nat, ok: bool)
    | Crash(p: nat)

  // ---------------------------------------------------------------- steps

  /** One turn of the apply loop. */
  function LoopProc(history: seq<Migration>, q: Proc, p: nat, ok: bool): Proc
    requires q.next < |history|
  {
    var m := history[q.next];
    if q.version >= m.version then q.(next := q.next + 1)
    else if IdMismatch(q.ids, m) then q.(phase := Failed)
    else if q.at < |m.statements| then
      var sent := q.(executed := q.executed + 1);
      if ok then sent.(txnLog := q.txnLog + [Entry(p, m.statements[q.at])], at := q.at + 1)
      else sent.(phase := Failed)
    else if ok && m.version !in q.txnRows then
      q.(txnRows := q.txnRows[m.version := m.id], next := q.next + 1, at := 0)
    else q.(phase := Failed)
  }

  predicate AtCommit(history: seq<Migration>, q: Proc) {
    q.phase == Looping && (q.next >= q.len || q.next >= |history|)
  }

  /** What an event makes of its run, short of a commit that goes through. An event that is not
      enabled changes nothing. `rows` are the rows committed by now. */
  ghost function ProcStep(history: seq<Migration>, rows: Rows, q: Proc, e: Event): Proc {
    match e
    case SetUp(_, ok) => if q.phase != Idle then q else q.(phase := if ok then Ready else Failed)
    case Begin(_) => if q.phase != Ready then q else q.(phase := Began, snapshot := rows)
    case ReadMax(_, newest) =>
      if q.phase != Began then q else
      var seen := if newest then rows else q.snapshot;
      q.(phase := Versioned, version := CurrentVersion(seen), base := |seen|)
    case ReadIds(_, newest) =>
      if q.phase != Versioned then q else
      var seen := if newest then rows else q.snapshot;
      q.(phase := Looping, ids := VersionIds(seen), next := 0, at := 0, txnRows := map[], txnLog := [])
    case Advance(p, ok) =>
      if q.phase != Looping then q
      else if AtCommit(history, q) then q.(phase := Failed)
      else LoopProc(history, q, p, ok)
    case Crash(_) => if q.phase == Finished then q else q.(phase := Failed)
  }

  /** The commit goes through: the database agrees and no version row is already there. */
  predicate Commits(history: seq<Migration>, s: State, e: Event) {
    && e.p < |s.procs| && e.Advance? && e.ok && AtCommit(history, s.procs[e.p])
    && s.procs[e.p].txnRows.Keys !! s.rows.Keys
  }

  function Committed(s: State, p: nat): State
    requires p < |s.procs|
  {
    var q := s.procs[p];
    State(s.hasTable, s.rows + q.txnRows, s.log + q.txnLog, s.procs[p := q.(phase := Finished)])
  }

  ghost function Step(history: seq<Migration>, s: State, e: Event): State {
    if e.p >= |s.procs| then s else
    var q := s.procs[e.p];
    if Commits(history, s, e) then Committed(s, e.p)
    else
      State(s.hasTable || (e.SetUp? && e.ok && q.phase == Idle), s.rows, s.log,
            s.procs[e.p := ProcStep(history, s.rows, q, e)])
  }

  ghost function Run(history: seq<Migration>, s: State, events: seq<Event>): (t: State)
    ensures |t.procs| == |s.procs|
    decreases |events|
  {
    if events == [] then s else Run(history, Step(history, s, events[0]), events[1..])
  }

  ghost predicate Initial(history: seq<Migration>, s: State) {
    && !s.hasTable && s.rows == map[] && s.log == []
    && forall p :: 0 <= p < |s.procs| ==>
         s.procs[p].phase == Idle && s.procs[p].len <= |history| && s.procs[p].executed == 0
  }

  /** The macro's versions: strictly increasing, from 1, within what the version column reads back. */
  ghost predicate History(history: seq<Migration>) {
    && (forall i :: 0 <= i < |history| ==> 1 <= history[i].version <= I32_MAX)
    && (forall i, j :: 0 <= i < j < |history| ==> history[i].version < history[j].version)
  }

  // ---------------------------------------------------------------- what a stretch of the history stores

  function VersionAfter(history: seq<Migration>, k: nat): nat
    requires k <= |history|
  {
    if k == 0 then 0 else history[k - 1].version
  }

  /** The version rows of migrations `lo` to `hi`. */
  function Stored(history: seq<Migration>, lo: nat, hi: nat): Rows
    requires hi <= |history|
  {
    if hi <= lo then map[] else Stored(history, lo, hi - 1)[history[hi - 1].version := history[hi - 1].id]
  }

  lemma {:induction false} StoredBounds(history: seq<Migration>, lo: nat, hi: nat)
    requires History(history) && lo <= hi <= |history|
    ensures forall v :: v in Stored(history, lo, hi) ==> v <= VersionAfter(history, hi)
    ensures |Stored(history, lo, hi)| == hi - lo
  {
    if lo < hi {
      StoredBounds(history, lo, hi - 1);
      var r, v := Stored(history, lo, hi - 1), history[hi - 1].version;
      assert VersionAfter(history, hi - 1) < v;
      assert v !in r;
      assert r[v := history[hi - 1].id].Keys == r.Keys + {v};
    }
  }

  lemma {:induction false} StoredHas(history: seq<Migration>, lo: nat, hi: nat, i: nat)
    requires lo <= i < hi <= |history|
    ensures history[i].version in Stored(history, lo, hi)
  {
    if i < hi - 1 {
      StoredHas(history, lo, hi - 1, i);
    }
  }

  lemma StoredVersion(history: seq<Migration>, k: nat)
    requires History(history) && k <= |history|
    ensures CurrentVersion(Stored(history, 0, k)) == VersionAfter(history, k)
  {
    if k > 0 {
      StoredBounds(history, 0, k);
      assert IsMax(Stored(history, 0, k), history[k - 1].version);
      CurrentVersionIsMax(Stored(history, 0, k), history[k - 1].version);
    }
  }

  lemma {:induction false} StoredJoin(history: seq<Migration>, mid: nat, hi: nat)
    requires mid <= hi <= |history|
    ensures Stored(history, 0, mid) + Stored(history, mid, hi) == Stored(history, 0, hi)
    decreases hi
  {
    if mid < hi {
      StoredJoin(history, mid, hi - 1);
      var r, t, m := Stored(history, 0, mid), Stored(history, mid, hi - 1), history[hi - 1];
      assert r + t[m.version := m.id] == (r + t)[m.version := m.id];
    } else {
      assert Stored(history, 0, mid) + map[] == Stored(history, 0, mid);
    }
  }

  /** The statements of migrations `lo` to `hi`, in order. */
  function Texts(history: seq<Migration>, lo: nat, hi: nat): seq<string>
    requires hi <= |history|
  {
    if hi <= lo then [] else Texts(history, lo, hi - 1) + history[hi - 1].statements
  }

  lemma {:induction false} TextsJoin(history: seq<Migration>, lo: nat, mid: nat, hi: nat)
    requires lo <= mid <= hi <= |history|
    ensures Texts(history, lo, hi) == Texts(history, lo, mid) + Texts(history, mid, hi)
    decreases hi
  {
    if mid < hi {
      TextsJoin(history, lo, mid, hi - 1);
    }
  }

  lemma {:induction false} TextsFlatten(history: seq<Migration>, k: nat)
    requires k <= |history|
    ensures Texts(history, 0, k) == Flatten(history[..k])
  {
    if k > 0 {
      TextsFlatten(history, k - 1);
      assert history[..k] == history[..k - 1] + [history[k - 1]];
      FlattenSnoc(history[..k - 1], history[k - 1]);
    }
  }

  // ---------------------------------------------------------------- invariant

  function Sqls(log: seq<Entry>): seq<string> {
    seq(|log|, i requires 0 <= i < |log| => log[i].sql)
  }

  ghost predicate IsPrefix(history: seq<Migration>, rows: Rows) {
    |rows| <= |history| && rows == Stored(history, 0, |rows|)
  }

  ghost predicate LoopInv(history: seq<Migration>, q: Proc, p: nat) {
    && q.next <= q.len <= |history|
    && q.txnRows == Stored(history, q.base, q.next)
    && (q.next == q.len || q.next < q.base ==> q.at == 0)
    && (q.next < q.len ==> q.at <= |history[q.next].statements|)
    && Sqls(q.txnLog) == Texts(history, q.base, q.next)
      + (if q.next < q.len then history[q.next].statements[..q.at] else [])
    && forall i :: 0 <= i < |q.txnLog| ==> q.txnLog[i].owner == p
  }

  /** What is known of a run while `k` migrations are committed. */
  ghost predicate ProcInv(history: seq<Migration>, k: nat, q: Proc, p: nat) {
    && q.len <= |history|
    && ((q.phase.Began? || q.phase.Versioned? || q.phase.Looping?) ==>
      IsPrefix(history, q.snapshot) && |q.snapshot| <= k)
    && ((q.phase.Versioned? || q.phase.Looping?) ==>
      q.base <= k && q.base <= |history| && q.version == VersionAfter(history, q.base))
    && (q.phase == Looping ==> LoopInv(history, q, p))
    && (q.phase == Finished ==> q.len <= k)
    && (q.phase.Idle? || q.phase.Ready? ==> q.executed == 0)
  }

  ghost predicate DbInv(history: seq<Migration>, rows: Rows, log: seq<Entry>) {
    IsPrefix(history, rows) && Sqls(log) == Texts(history, 0, |rows|)
  }

  ghost predicate OwnersFinished(log: seq<Entry>, procs: seq<Proc>) {
    forall i :: 0 <= i < |log| ==> log[i].owner < |procs| && procs[log[i].owner].phase == Finished
  }

  ghost predicate Inv(history: seq<Migration>, s: State) {
    && DbInv(history, s.rows, s.log)
    && (forall p :: 0 <= p < |s.procs| ==> ProcInv(history, |s.rows|, s.procs[p], p))
    && OwnersFinished(s.log, s.procs)
  }

  lemma SkipsExactlyBelowBase(history: seq<Migration>, q: Proc)
    requires History(history) && q.base <= |history| && q.next < |history| && q.version == VersionAfter(history, q.base)
    ensures q.version >= history[q.next].version <==> q.next < q.base
  {
  }

  lemma SendInv(history: seq<Migration>, q: Proc, p: nat)
    requires LoopInv(history, q, p) && q.next < q.len && q.base <= q.next && q.at < |history[q.next].statements|
    ensures var text := history[q.next].statements[q.at];
      LoopInv(history, q.(executed := q.executed + 1, txnLog := q.txnLog + [Entry(p, text)], at := q.at + 1), p)
  {
    var stmts := history[q.next].statements;
    var log := q.txnLog + [Entry(p, stmts[q.at])];
    assert Sqls(log) == Sqls(q.txnLog) + [stmts[q.at]];
    assert stmts[..q.at + 1] == stmts[..q.at] + [stmts[q.at]];
  }

  lemma InsertInv(history: seq<Migration>, q: Proc, p: nat)
    requires History(history) && LoopInv(history, q, p)
    requires q.next < q.len && q.base <= q.next && q.at == |history[q.next].statements|
    ensures var m := history[q.next];
      LoopInv(history, q.(txnRows := q.txnRows[m.version := m.id], next := q.next + 1, at := 0), p)
  {
    var m := history[q.next];
    assert Stored(history, q.base, q.next + 1) == q.txnRows[m.version := m.id];
    assert m.statements[..q.at] == m.statements;
    assert Texts(history, q.base, q.next + 1) == Texts(history, q.base, q.next) + m.statements;
    assert q.next + 1 < q.len ==> history[q.next + 1].statements[..0] == [];
  }

  lemma SkipInv(history: seq<Migration>, q: Proc, p: nat)
    requires LoopInv(history, q, p) && q.next < q.len && q.next < q.base
    ensures LoopInv(history, q.(next := q.next + 1), p)
  {
    assert Texts(history, q.base, q.next) == [] && Texts(history, q.base, q.next + 1) == [];
    assert history[q.next].statements[..0] == [];
    assert q.next + 1 < q.len ==> history[q.next + 1].statements[..0] == [];
  }

  /** The three ways a turn of the loop moves on; otherwise it fails. */
  lemma LoopProcShape(history: seq<Migration>, q: Proc, p: nat, ok: bool)
    requires q.next < |history|
    ensures
      var m, r := history[q.next], LoopProc(history, q, p, ok);
      || (r.phase == Failed && r.len == q.len)
      || (q.version >= m.version && r == q.(next := q.next + 1))
      || (q.version < m.version && q.at < |m.statements|
          && r == q.(executed := q.executed + 1, txnLog := q.txnLog + [Entry(p, m.statements[q.at])], at := q.at + 1))
      || (q.version < m.version && q.at >= |m.statements|
          && r == q.(txnRows := q.txnRows[m.version := m.id], next := q.next + 1, at := 0))
  {
  }

  lemma LoopProcInv(history: seq<Migration>, q: Proc, p: nat, ok: bool)
    requires History(history) && LoopInv(history, q, p) && q.next < q.len
    requires q.base <= |history| && q.version == VersionAfter(history, q.base)
    ensures var r := LoopProc(history, q, p, ok);
      || (r.phase == Failed && r.len == q.len)
      || (LoopInv(history, r, p) && r.(next := q.next, at := q.at, txnRows := q.txnRows, txnLog := q.txnLog,
        executed := q.executed) == q)
  {
    SkipsExactlyBelowBase(history, q);
    LoopProcShape(history, q, p, ok);
    if q.next < q.base {
      SkipInv(history, q, p);
    } else if q.at < |history[q.next].statements| {
      SendInv(history, q, p);
    } else {
      InsertInv(history, q, p);
    }
  }

  lemma AdvanceInv(history: seq<Migration>, k: nat, q: Proc, p: nat, ok: bool)
    requires History(history) && ProcInv(history, k, q, p) && q.phase == Looping && q.next < q.len
    ensures ProcInv(history, k, LoopProc(history, q, p, ok), p)
  {
    LoopProcInv(history, q, p, ok);
  }

  lemma ReadMaxInv(history: seq<Migration>, k: nat, q: Proc, p: nat, seen: Rows)
    requires History(history) && ProcInv(history, k, q, p) && q.phase == Began
    requires IsPrefix(history, seen) && |seen| <= k
    ensures ProcInv(history, k, q.(phase := Versioned, version := CurrentVersion(seen), base := |seen|), p)
  {
    StoredVersion(history, |seen|);
  }

  lemma ReadIdsInv(history: seq<Migration>, k: nat, q: Proc, p: nat, ids: map<nat, string>)
    requires ProcInv(history, k, q, p) && q.phase == Versioned
    ensures ProcInv(history, k, q.(phase := Looping, ids := ids, next := 0, at := 0, txnRows := map[], txnLog := []), p)
  {
    assert q.len > 0 ==> history[0].statements[..0] == [];
    assert Sqls([]) == [];
  }

  lemma ProcStepInv(history: seq<Migration>, rows: Rows, q: Proc, e: Event)
    requires History(history) && IsPrefix(history, rows) && ProcInv(history, |rows|, q, e.p)
    ensures ProcInv(history, |rows|, ProcStep(history, rows, q, e), e.p)
  {
    match e
    case SetUp(_, _) =>
    case Begin(_) =>
    case ReadMax(p, newest) =>
      if q.phase == Began {
        ReadMaxInv(history, |rows|, q, p, if newest then rows else q.snapshot);
      }
    case ReadIds(p, newest) =>
      if q.phase == Versioned {
        ReadIdsInv(history, |rows|, q, p, VersionIds(if newest then rows else q.snapshot));
      }
    case Advance(p, ok) =>
      if q.phase == Looping && !AtCommit(history, q) {
        AdvanceInv(history, |rows|, q, p, ok);
      }
    case Crash(_) =>
  }

  lemma BaseIsCurrent(history: seq<Migration>, k: nat, base: nat, len: nat)
    requires base <= k <= |history| && base < len <= |history|
    requires Stored(history, base, len).Keys !! Stored(history, 0, k).Keys
    ensures base == k
  {
    StoredHas(history, base, len, base);
    if base < k {
      StoredHas(history, 0, k, base);
      assert false;
    }
  }

  /** A commit that passes the key check continues exactly where the committed history ends. */
  lemma CommitExtends(history: seq<Migration>, k: nat, base: nat, len: nat) returns (k': nat)
    requires History(history) && base <= k <= |history| && len <= |history|
    requires Stored(history, base, len).Keys !! Stored(history, 0, k).Keys
    ensures k <= k' && len <= k' <= |history|
    ensures Stored(history, 0, k) + Stored(history, base, len) == Stored(history, 0, k')
    ensures |Stored(history, 0, k')| == k'
    ensures Texts(history, 0, k) + Texts(history, base, len) == Texts(history, 0, k')
  {
    if base < len {
      BaseIsCurrent(history, k, base, len);
      k' := len;
      StoredJoin(history, k, len);
      TextsJoin(history, 0, k, len);
    } else {
      k' := k;
      assert Stored(history, 0, k) + map[] == Stored(history, 0, k);
    }
    StoredBounds(history, 0, k');
  }

  lemma SqlsConcat(xs: seq<Entry>, ys: seq<Entry>)
    ensures Sqls(xs + ys) == Sqls(xs) + Sqls(ys)
  {
  }

  lemma ProcInvGrows(history: seq<Migration>, k: nat, k': nat, q: Proc, p: nat)
    requires ProcInv(history, k, q, p) && k <= k'
    ensures ProcInv(history, k', q, p)
    ensures q.len <= k' ==> ProcInv(history, k', q.(phase := Finished), p)
  {
  }

  lemma CommittedOwners(s: State, p: nat)
    requires OwnersFinished(s.log, s.procs) && p < |s.procs|
    requires forall i :: 0 <= i < |s.procs[p].txnLog| ==> s.procs[p].txnLog[i].owner == p
    ensures OwnersFinished(Committed(s, p).log, Committed(s, p).procs)
  {
    var q, t := s.procs[p], Committed(s, p);
    forall i | 0 <= i < |t.log| ensures t.log[i].owner < |t.procs| && t.procs[t.log[i].owner].phase == Finished {
      if i >= |s.log| {
        assert t.log[i] == q.txnLog[i - |s.log|];
      } else {
        assert t.log[i] == s.log[i];
      }
    }
  }

  lemma CommittedProcs(history: seq<Migration>, s: State, p: nat, k: nat)
    requires forall r :: 0 <= r < |s.procs| ==> ProcInv(history, |s.rows|, s.procs[r], r)
    requires p < |s.procs| && |s.rows| <= k && s.procs[p].len <= k
    ensures forall r :: 0 <= r < |s.procs| ==> ProcInv(history, k, Committed(s, p).procs[r], r)
  {
    forall r | 0 <= r < |s.procs| ensures ProcInv(history, k, Committed(s, p).procs[r], r) {
      ProcInvGrows(history, |s.rows|, k, s.procs[r], r);
    }
  }

  lemma CommittedDb(history: seq<Migration>, s: State, p: nat)
    requires History(history) && DbInv(history, s.rows, s.log) && p < |s.procs|
    requires ProcInv(history, |s.rows|, s.procs[p], p)
    requires AtCommit(history, s.procs[p]) && s.procs[p].txnRows.Keys !! s.rows.Keys
    ensures var t := Committed(s, p);
      DbInv(history, t.rows, t.log) && |s.rows| <= |t.rows| && s.procs[p].len <= |t.rows|
  {
    var q := s.procs[p];
    var k := CommitExtends(history, |s.rows|, q.base, q.len);
    SqlsConcat(s.log, q.txnLog);
  }

  lemma CommitInv(history: seq<Migration>, s: State, p: nat)
    requires History(history) && Inv(history, s) && p < |s.procs|
    requires AtCommit(history, s.procs[p]) && s.procs[p].txnRows.Keys !! s.rows.Keys
    ensures Inv(history, Committed(s, p))
    ensures |s.rows| <= |Committed(s, p).rows|
  {
    assert ProcInv(history, |s.rows|, s.procs[p], p);
    CommittedDb(history, s, p);
    CommittedProcs(history, s, p, |Committed(s, p).rows|);
    CommittedOwners(s, p);
  }

  lemma StepInv(history: seq<Migration>, s: State, e: Event)
    requires History(history) && Inv(history, s)
    ensures Inv(history, Step(history, s, e))
    ensures |s.rows| <= |Step(history, s, e).rows|
  {
    if Commits(history, s, e) {
      CommitInv(history, s, e.p);
    } else if e.p < |s.procs| {
      ProcStepInv(history, s.rows, s.procs[e.p], e);
      FinishedStays(history, s.rows, s.procs[e.p], e);
    }
  }

  lemma FinishedStays(history: seq<Migration>, rows: Rows, q: Proc, e: Event)
    ensures q.phase == Finished ==> ProcStep(history, rows, q, e).phase == Finished
  {
  }

  lemma {:induction false} RunInv(history: seq<Migration>, s: State, events: seq<Event>)
    requires History(history) && Inv(history, s)
    ensures Inv(history, Run(history, s, events))
    ensures |s.rows| <= |Run(history, s, events).rows|
    decreases |events|
  {
    if events != [] {
      StepInv(history, s, events[0]);
      RunInv(history, Step(history, s, events[0]), events[1..]);
    }
  }

  // ---------------------------------------------------------------- what every run guarantees

  /** After any interleaving the committed rows are those of a prefix of the history and the
      committed statements are that prefix's, each migration's exactly once and in order. Every
      committed statement belongs to a run that finished, so a run that failed or crashed left none. */
  lemma CommittedAtMostOnce(history: seq<Migration>, s: State, events: seq<Event>) returns (k: nat)
    requires History(history) && Initial(history, s)
    ensures
      var t := Run(history, s, events);
      && k <= |history|
      && t.rows == Stored(history, 0, k)
      && Sqls(t.log) == Flatten(history[..k])
      && (forall i :: 0 <= i < |t.log| ==> t.log[i].owner < |t.procs| && t.procs[t.log[i].owner].phase == Finished)
      && (forall p :: 0 <= p < |t.procs| && t.procs[p].phase == Finished ==> t.procs[p].len <= k)
  {
    RunInv(history, s, events);
    var t := Run(history, s, events);
    k := |t.rows|;
    TextsFlatten(history, k);
    assert forall p :: 0 <= p < |t.procs| ==> ProcInv(history, k, t.procs[p], p);
  }

  /** The committed rows and log change only when some run finishes, and then by all of its
      transaction at once. */
  lemma OnlyFinishingCommits(history: seq<Migration>, s: State, e: Event)
    ensures
      var t := Step(history, s, e);
      || (t.rows == s.rows && t.log == s.log)
      || (e.p < |s.procs| && s.procs[e.p].phase == Looping && t.procs[e.p].phase == Finished
          && t.rows == s.rows + s.procs[e.p].txnRows && t.log == s.log + s.procs[e.p].txnLog)
  {
  }

  // ---------------------------------------------------------------- reruns

  /** The run has nothing to do: whatever it read or will read covers its whole list. */
  ghost predicate Quiet(k: nat, q: Proc) {
    && q.len <= k
    && q.executed == 0
    && ((q.phase.Began? || q.phase.Versioned?) ==> q.len <= |q.snapshot|)
    && ((q.phase.Versioned? || q.phase.Looping?) ==> q.len <= q.base)
  }

  lemma QuietProcStep(history: seq<Migration>, rows: Rows, q: Proc, e: Event)
    requires History(history) && ProcInv(history, |rows|, q, e.p) && Quiet(|rows|, q)
    ensures Quiet(|rows|, ProcStep(history, rows, q, e))
  {
    if e.Advance? && q.phase == Looping && q.next < q.len {
      SkipsExactlyBelowBase(history, q);
    }
  }

  lemma QuietStep(history: seq<Migration>, s: State, e: Event, p: nat)
    requires History(history) && Inv(history, s) && p < |s.procs| && Quiet(|s.rows|, s.procs[p])
    requires |s.rows| <= |Step(history, s, e).rows|
    ensures Quiet(|Step(history, s, e).rows|, Step(history, s, e).procs[p])
  {
    if e.p == p && !Commits(history, s, e) {
      QuietProcStep(history, s.rows, s.procs[p], e);
    }
  }

  lemma {:induction false} QuietRun(history: seq<Migration>, s: State, events: seq<Event>, p: nat)
    requires History(history) && Inv(history, s) && p < |s.procs| && Quiet(|s.rows|, s.procs[p])
    ensures Quiet(|Run(history, s, events).rows|, Run(history, s, events).procs[p])
    decreases |events|
  {
    if events != [] {
      StepInv(history, s, events[0]);
      QuietStep(history, s, events[0], p);
      QuietRun(history, Step(history, s, events[0]), events[1..], p);
    }
  }

  /** Once a run has finished, a run of the same or an older build that had not begun its
      transaction sends no migration statement, whatever else happens. */
  lemma RerunIsQuiet(history: seq<Migration>, s: State, before: seq<Event>, after: seq<Event>, done: nat, p: nat)
    requires History(history) && Initial(history, s)
    requires done < |s.procs| && p < |s.procs|
    requires
      var t := Run(history, s, before);
      && t.procs[done].phase == Finished
      && (t.procs[p].phase.Idle? || t.procs[p].phase.Ready?)
      && t.procs[p].len <= t.procs[done].len
    ensures Run(history, Run(history, s, before), after).procs[p].executed == 0
  {
    RunInv(history, s, before);
    var t := Run(history, s, before);
    assert ProcInv(history, |t.rows|, t.procs[done], done) && ProcInv(history, |t.rows|, t.procs[p], p);
    QuietRun(history, t, after, p);
  }

  // ---------------------------------------------------------------- where versions come from

  const U32_MAX: nat := 0xffff_ffff

  function MaxVersion(history: seq<Migration>): nat {
    if history == [] then 0 else
    var m := MaxVersion(history[1..]);
    if history[0].version > m then history[0].version else m
  }

  /** The planner's next version: one past the largest, saturating at `u32::MAX`. */
  function NextVersion(history: seq<Migration>): nat {
    if MaxVersion(history) < U32_MAX then MaxVersion(history) + 1 else U32_MAX
  }

  lemma {:induction false} MaxVersionBounds(history: seq<Migration>)
    ensures forall i :: 0 <= i < |history| ==> history[i].version <= MaxVersion(history)
    ensures history != [] ==> exists i :: 0 <= i < |history| && history[i].version == MaxVersion(history)
  {
    if history != [] {
      MaxVersionBounds(history[1..]);
      assert forall i :: 1 <= i < |history| ==> history[i] == history[1..][i - 1];
      if history[0].version < MaxVersion(history) {
        var j :| 0 <= j < |history| - 1 && history[1..][j].version == MaxVersion(history[1..]);
        assert history[j + 1].version == MaxVersion(history);
      }
    }
  }

  /** Appending a planned migration keeps the history one the runner handles, exactly as long as
      the largest version is below `i32::MAX`. */
  lemma PlannedHistory(history: seq<Migration>, id: string, statements: seq<string>)
    requires History(history)
    ensures History(history + [Migration(NextVersion(history), id, statements)]) <==> MaxVersion(history) < I32_MAX
  {
    MaxVersionBounds(history);
    var more := history + [Migration(NextVersion(history), id, statements)];
    assert more[|history|].version == NextVersion(history);
    assert forall i :: 0 <= i < |history| ==> more[i] == history[i];
  }
}
