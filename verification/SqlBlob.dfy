/** The NUL-separated blob that carries one migration's statements from the macro to the runtime. */
module SqlBlob {

  const NUL: char := '\0'

  predicate NulFree(s: string) {
    NUL !in s
  }

  function Blob(sqls: seq<string>): string {
    if sqls == [] then "" else sqls[0] + [NUL] + Blob(sqls[1..])
  }

  lemma {:induction false} BlobSnoc(sqls: seq<string>, sql: string)
    ensures Blob(sqls + [sql]) == Blob(sqls) + sql + [NUL]
  {
    if sqls == [] {
      assert sqls + [sql] == [sql];
    } else {
      assert (sqls + [sql])[1..] == sqls[1..] + [sql];
      BlobSnoc(sqls[1..], sql);
    }
  }

  /** The loop of `write_sql_blob`. */
  method WriteSqlBlob(sqls: seq<string>) returns (blob: string)
    ensures blob == Blob(sqls)
  {
    blob := "";
    for i := 0 to |sqls|
      invariant blob == Blob(sqls[..i])
    {
      BlobSnoc(sqls[..i], sqls[i]);
      assert sqls[..i] + [sqls[i]] == sqls[..i + 1];
      blob := blob + sqls[i];
      blob := blob + [NUL];
    }
    assert sqls[..|sqls|] == sqls;
  }

  function FirstNul(s: string): (i: nat)
    ensures i <= |s|
    ensures i < |s| ==> s[i] == NUL
    ensures forall j :: 0 <= j < i ==> s[j] != NUL
  {
    if s == "" || s[0] == NUL then 0 else 1 + FirstNul(s[1..])
  }

  /** `split_terminator`: a final terminator ends a piece without starting an empty one. */
  function SplitTerminator(s: string): seq<string>
    decreases |s|
  {
    if s == "" then [] else
    var i := FirstNul(s);
    if i == |s| then [s] else [s[..i]] + SplitTerminator(s[i + 1..])
  }

  function NonEmpty(xs: seq<string>): seq<string> {
    if xs == [] then [] else if xs[0] == "" then NonEmpty(xs[1..]) else [xs[0]] + NonEmpty(xs[1..])
  }

  function SplitSqlBlob(blob: string): seq<string> {
    NonEmpty(SplitTerminator(blob))
  }

  lemma {:induction false} SplitBlob(sqls: seq<string>)
    requires forall i :: 0 <= i < |sqls| ==> NulFree(sqls[i])
    ensures SplitTerminator(Blob(sqls)) == sqls
  {
    if sqls != [] {
      var b, n := Blob(sqls), |sqls[0]|;
      assert b[n] == NUL && b[..n] == sqls[0] && b[n + 1..] == Blob(sqls[1..]);
      assert forall j :: 0 <= j < n ==> b[j] == sqls[0][j] && sqls[0][j] in sqls[0];
      assert FirstNul(b) == n;
      SplitBlob(sqls[1..]);
    }
  }

  lemma {:induction false} PiecesNulFree(s: string)
    ensures forall x :: x in SplitTerminator(s) ==> NulFree(x)
    decreases |s|
  {
    if s != "" {
      var i := FirstNul(s);
      if i < |s| {
        PiecesNulFree(s[i + 1..]);
      }
    }
  }

  lemma NonEmptyMembers(xs: seq<string>)
    ensures forall x :: x in NonEmpty(xs) <==> x in xs && x != ""
  {
  }

  /** Splitting what was written returns the non-empty statements in order, exactly when no
      statement holds a NUL. */
  lemma BlobRoundTrip(sqls: seq<string>)
    ensures SplitSqlBlob(Blob(sqls)) == NonEmpty(sqls) <==> forall i :: 0 <= i < |sqls| ==> NulFree(sqls[i])
  {
    if forall i :: 0 <= i < |sqls| ==> NulFree(sqls[i]) {
      SplitBlob(sqls);
    } else {
      var i :| 0 <= i < |sqls| && !NulFree(sqls[i]);
      NonEmptyMembers(sqls);
      NonEmptyMembers(SplitTerminator(Blob(sqls)));
      PiecesNulFree(Blob(sqls));
      assert sqls[i] in NonEmpty(sqls) && sqls[i] !in SplitSqlBlob(Blob(sqls));
    }
  }
}
