/** Workspace symbol search: a direct computation and the three caches stacked on top of it. */
module Symbols {
  import opened Common
  import opened Text
  import O = Ordering
  import R = RingCache
  import D = DocStore
  import P = ParseCache

  datatype Kind = Table | Column

  datatype Raw = Raw(name: string, kind: Kind, container: Option<string>, start: nat, end: nat)

  datatype Flat = Flat(uri: string, raw: Raw)

  datatype Symbol = Symbol(name: string, kind: Kind, container: Option<string>, uri: string, start: nat, end: nat)

  /** A table known from disk: its file's uri and the text `cached_parse` delivers, if any. */
  datatype DiskFile = DiskFile(uri: string, text: Option<string>)

  /** `extract` is parsing followed by symbol extraction; `None` when the parser yields no tree. */
  datatype Env = Env(
    digest: D.Digest,
    hash: string -> nat,
    extract: (string, P.Format) -> Option<seq<Raw>>,
    formatOf: string -> P.Format,
    disk: seq<DiskFile>)

  // ---------------------------------------------------------------- the two orders

  predicate FlatBefore(a: Flat, b: Flat) {
    O.Less(a.uri, b.uri) || (a.uri == b.uri && a.raw.start < b.raw.start)
  }

  function Rank(k: Kind): nat {
    if k == Table then 0 else 1
  }

  predicate SymbolBefore(a: Symbol, b: Symbol) {
    O.Less(a.name, b.name) || (a.name == b.name && Rank(a.kind) < Rank(b.kind))
  }

  lemma OrdersAreWeak()
    ensures O.WeakOrder(FlatBefore) && O.WeakOrder(SymbolBefore)
  {
    forall a: Flat, b: Flat, c: Flat | !FlatBefore(b, a) && !FlatBefore(c, b) ensures !FlatBefore(c, a) {
      O.NotLessTransitive(a.uri, b.uri, c.uri);
    }
    forall a: Symbol, b: Symbol, c: Symbol | !SymbolBefore(b, a) && !SymbolBefore(c, b) ensures !SymbolBefore(c, a) {
      O.NotLessTransitive(a.name, b.name, c.name);
    }
    forall a: string, b: string | O.Less(a, b) ensures !O.Less(b, a) {
      O.NotLessBothWays(a, b);
    }
  }

  // ---------------------------------------------------------------- direct computation

  predicate MatchesAt(hay: string, needle: string, start: nat)
    requires start + |needle| <= |hay|
  {
    forall i :: 0 <= i < |needle| ==> LowerChar(hay[start + i]) == needle[i]
  }

  predicate Contains(hay: string, needle: string) {
    exists start :: 0 <= start <= |hay| - |needle| && MatchesAt(hay, needle, start)
  }

  /** The nested search loop decides whether the needle occurs, ASCII case aside. */
  method AsciiCiContains(hay: string, needle: string) returns (found: bool)
    ensures found == Contains(hay, needle)
  {
    if needle == "" {
      assert MatchesAt(hay, needle, 0);
      return true;
    }
    if |needle| > |hay| {
      return false;
    }
    for start := 0 to |hay| - |needle| + 1
      invariant forall j :: 0 <= j < start ==> !MatchesAt(hay, needle, j)
    {
      var i := 0;
      while i < |needle| && LowerChar(hay[start + i]) == needle[i]
        invariant 0 <= i <= |needle|
        invariant forall j :: 0 <= j < i ==> LowerChar(hay[start + j]) == needle[j]
      {
        i := i + 1;
      }
      if i == |needle| {
        assert MatchesAt(hay, needle, start);
        return true;
      }
    }
    return false;
  }

  function Needle(query: string): string {
    Lower(TrimStart(TrimEnd(query)))
  }

  function Tag(uri: string, raws: seq<Raw>): seq<Flat> {
    seq(|raws|, i requires 0 <= i < |raws| => Flat(uri, raws[i]))
  }

  /** Open documents that have a tree. */
  function Seen(env: Env, input: seq<(string, string)>): set<string> {
    set i | 0 <= i < |input| && env.extract(input[i].1, env.formatOf(input[i].0)).Some? :: input[i].0
  }

  function DocsDirect(env: Env, input: seq<(string, string)>): seq<Flat> {
    if input == [] then [] else
    var (uri, text) := input[|input| - 1];
    var raws := env.extract(text, env.formatOf(uri));
    DocsDirect(env, input[..|input| - 1]) + if raws.Some? then Tag(uri, raws.value) else []
  }

  function DiskDirect(env: Env, seen: set<string>, disk: seq<DiskFile>): seq<Flat> {
    if disk == [] then [] else
    var f := disk[|disk| - 1];
    var raws := if f.uri in seen || f.text.None? then None else env.extract(f.text.value, env.formatOf(f.uri));
    DiskDirect(env, seen, disk[..|disk| - 1]) + if raws.Some? then Tag(f.uri, raws.value) else []
  }

  function FlatDirect(env: Env, input: seq<(string, string)>): seq<Flat> {
    O.SortStable(FlatBefore, DocsDirect(env, input) + DiskDirect(env, Seen(env, input), env.disk))
  }

  function Matching(flat: seq<Flat>, needle: string): seq<Symbol> {
    if flat == [] then [] else
    var rest, r := Matching(flat[1..], needle), flat[0].raw;
    if Contains(r.name, needle) then [Symbol(r.name, r.kind, r.container, flat[0].uri, r.start, r.end)] + rest else rest
  }

  function Filtered(flat: seq<Flat>, needle: string): seq<Symbol> {
    O.SortStable(SymbolBefore, Matching(flat, needle))
  }

  /** What a search means: extract, filter, sort, with no cache anywhere. */
  function Direct(env: Env, input: seq<(string, string)>, needle: string): seq<Symbol> {
    Filtered(FlatDirect(env, input), needle)
  }

  /** The answer is sorted and is exactly the matching symbols. */
  lemma DirectIsSorted(env: Env, input: seq<(string, string)>, needle: string)
    ensures O.InOrder(SymbolBefore, Direct(env, input, needle))
    ensures multiset(Direct(env, input, needle)) == multiset(Matching(FlatDirect(env, input), needle))
    ensures multiset(FlatDirect(env, input)) == multiset(DocsDirect(env, input))
      + multiset(DiskDirect(env, Seen(env, input), env.disk))
  {
    OrdersAreWeak();
    O.SortStableFacts(SymbolBefore, Matching(FlatDirect(env, input), needle));
    O.SortStableFacts(FlatBefore, DocsDirect(env, input) + DiskDirect(env, Seen(env, input), env.disk));
  }

  // ---------------------------------------------------------------- through the caches

  type SymbolRing = R.Ring<(nat, nat), seq<Raw>>

  datatype Caches = Caches(symbols: SymbolRing, workspace: R.Ring<nat, seq<Flat>>, filtered: R.Ring<(nat, nat),
    seq<Symbol>>)

  const SYMBOL_SLOTS := 128
  const WORKSPACE_SLOTS := 8
  const FILTERED_SLOTS := 256

  /** `get_or_compute` as one thread sees it; which allocation is shared does not matter here. */
  function Through<K, V>(n: nat, ring: R.Ring<K, V>, key: K, value: V): (r: (R.Ring<K, V>, V))
    ensures key in r.0.entries && r.0.entries[key].value == r.1
  {
    var next := R.Publish(n, ring, key, R.Arc(0, value));
    (next, next.entries[key].value)
  }

  function TextKey(env: Env, text: string): (nat, nat) {
    (env.hash(text), |text|)
  }

  function DocsThrough(env: Env, ring: SymbolRing, input: seq<(string, string)>): (SymbolRing, seq<Flat>) {
    if input == [] then (ring, []) else
    var (uri, text) := input[|input| - 1];
    var (ring1, out) := DocsThrough(env, ring, input[..|input| - 1]);
    var raws := env.extract(text, env.formatOf(uri));
    if raws.None? then (ring1, out) else
    var (ring2, shared) := Through(SYMBOL_SLOTS, ring1, TextKey(env, text), raws.value);
    (ring2, out + Tag(uri, shared))
  }

  function DiskThrough(env: Env, ring: SymbolRing, seen: set<string>, disk: seq<DiskFile>): (SymbolRing, seq<Flat>) {
    if disk == [] then (ring, []) else
    var f := disk[|disk| - 1];
    var (ring1, out) := DiskThrough(env, ring, seen, disk[..|disk| - 1]);
    var raws := if f.uri in seen || f.text.None? then None else env.extract(f.text.value, env.formatOf(f.uri));
    if raws.None? then (ring1, out) else
    var (ring2, shared) := Through(SYMBOL_SLOTS, ring1, TextKey(env, f.text.value), raws.value);
    (ring2, out + Tag(f.uri, shared))
  }

  function FlatThrough(env: Env, ring: SymbolRing, input: seq<(string, string)>): (SymbolRing, seq<Flat>) {
    var (ring1, open) := DocsThrough(env, ring, input);
    var (ring2, closed) := DiskThrough(env, ring1, Seen(env, input), env.disk);
    (ring2, O.SortStable(FlatBefore, open + closed))
  }

  /** `compute_shared` with the fingerprint already in hand. */
  function ComputeShared(env: Env, c: Caches, input: seq<(string, string)>, fingerprint: nat, needle: string): (Caches,
      seq<Symbol>) {
    var key := (fingerprint, env.hash(needle));
    if key in c.filtered.entries then (c, c.filtered.entries[key].value) else
    var (symbols, built) := if fingerprint in c.workspace.entries then (c.symbols, [])
      else FlatThrough(env, c.symbols, input);
    var (workspace, flat) := Through(WORKSPACE_SLOTS, c.workspace, fingerprint, built);
    var (filtered, result) := Through(FILTERED_SLOTS, c.filtered, key, Filtered(flat, needle));
    (Caches(symbols, workspace, filtered), result)
  }

  /** `build_workspace_symbol_list`: two loops that share one cache and one output vector. */
  method BuildWorkspaceSymbolList(env: Env, ring: SymbolRing, input: seq<(string, string)>)
    returns (cache: SymbolRing, out: seq<Flat>)
    ensures (cache, out) == FlatThrough(env, ring, input)
  {
    cache, out := ring, [];
    for i := 0 to |input|
      invariant (cache, out) == DocsThrough(env, ring, input[..i])
    {
      assert input[..i + 1][..i] == input[..i];
      var (uri, text) := input[i];
      var raws := env.extract(text, env.formatOf(uri));
      if raws.Some? {
        var (next, shared) := Through(SYMBOL_SLOTS, cache, TextKey(env, text), raws.value);
        cache, out := next, out + Tag(uri, shared);
      }
    }
    assert input[..|input|] == input;
    var fromDocs, mid := out, cache;
    var seen := Seen(env, input);
    var closed := [];
    for i := 0 to |env.disk|
      invariant (cache, closed) == DiskThrough(env, mid, seen, env.disk[..i])
      invariant out == fromDocs + closed
    {
      assert env.disk[..i + 1][..i] == env.disk[..i];
      var f := env.disk[i];
      if f.uri !in seen && f.text.Some? {
        var raws := env.extract(f.text.value, env.formatOf(f.uri));
        if raws.Some? {
          var (next, shared) := Through(SYMBOL_SLOTS, cache, TextKey(env, f.text.value), raws.value);
          cache, closed, out := next, closed + Tag(f.uri, shared), out + Tag(f.uri, shared);
        }
      }
    }
    assert env.disk[..|env.disk|] == env.disk;
    out := O.SortStable(FlatBefore, out);
  }

  // ---------------------------------------------------------------- what formats have to agree on

  /** Equal, or equal up to order. */
  ghost predicate Same<T>(exact: bool, a: seq<T>, b: seq<T>) {
    if exact then a == b else multiset(a) == multiset(b)
  }

  /** No two texts share a hash and no two document sets a digest. */
  ghost predicate CollisionFree(env: Env) {
    && (forall a, b :: env.hash(a) == env.hash(b) ==> a == b)
    && (forall x, y :: env.digest(x) == env.digest(y) ==> x == y)
  }

  ghost predicate FormatsAgreeOn(env: Env, uris: set<string>, exact: bool, text: string) {
    forall x, y ::
      x in uris && y in uris && env.extract(text, env.formatOf(x)).Some? && env.extract(text, env.formatOf(y)).Some? ==>
        Same(exact, env.extract(text, env.formatOf(x)).value, env.extract(text, env.formatOf(y)).value)
  }

  /** Whenever two of the uris' formats both yield a tree of one text, they yield the same symbols. */
  ghost predicate FormatsAgree(env: Env, uris: set<string>, exact: bool) {
    forall text :: FormatsAgreeOn(env, uris, exact, text)
  }

  predicate InputOver(uris: set<string>, input: seq<(string, string)>) {
    forall i :: 0 <= i < |input| ==> input[i].0 in uris
  }

  predicate DiskOver(uris: set<string>, disk: seq<DiskFile>) {
    forall i :: 0 <= i < |disk| ==> disk[i].uri in uris
  }

  lemma {:induction false} TagCount(uri: string, raws: seq<Raw>, f: Flat)
    ensures multiset(Tag(uri, raws))[f] == if f.uri == uri then multiset(raws)[f.raw] else 0
  {
    if raws != [] {
      TagCount(uri, raws[1..], f);
      assert Tag(uri, raws) == [Flat(uri, raws[0])] + Tag(uri, raws[1..]);
      assert raws == [raws[0]] + raws[1..];
    }
  }

  lemma TagSame(exact: bool, uri: string, a: seq<Raw>, b: seq<Raw>)
    requires Same(exact, a, b)
    ensures Same(exact, Tag(uri, a), Tag(uri, b))
  {
    if !exact {
      forall f ensures multiset(Tag(uri, a))[f] == multiset(Tag(uri, b))[f] {
        TagCount(uri, a, f);
        TagCount(uri, b, f);
      }
    }
  }

  function FlatOf(s: Symbol): Flat {
    Flat(s.uri, Raw(s.name, s.kind, s.container, s.start, s.end))
  }

  lemma {:induction false} MatchingCount(flat: seq<Flat>, needle: string, s: Symbol)
    ensures multiset(Matching(flat, needle))[s] == if Contains(s.name, needle) then multiset(flat)[FlatOf(s)] else 0
  {
    if flat != [] {
      MatchingCount(flat[1..], needle, s);
      assert flat == [flat[0]] + flat[1..];
    }
  }

  lemma FilteredSame(exact: bool, a: seq<Flat>, b: seq<Flat>, needle: string)
    requires Same(exact, a, b)
    ensures Same(exact, Filtered(a, needle), Filtered(b, needle))
  {
    if !exact {
      OrdersAreWeak();
      O.SortStableFacts(SymbolBefore, Matching(a, needle));
      O.SortStableFacts(SymbolBefore, Matching(b, needle));
      forall s ensures multiset(Matching(a, needle))[s] == multiset(Matching(b, needle))[s] {
        MatchingCount(a, needle, s);
        MatchingCount(b, needle, s);
      }
    }
  }

  lemma SortSame(exact: bool, a: seq<Flat>, b: seq<Flat>)
    requires Same(exact, a, b)
    ensures Same(exact, O.SortStable(FlatBefore, a), O.SortStable(FlatBefore, b))
  {
    if !exact {
      OrdersAreWeak();
      O.SortStableFacts(FlatBefore, a);
      O.SortStableFacts(FlatBefore, b);
    }
  }

  // ---------------------------------------------------------------- refinement

  ghost predicate SymbolsOk(env: Env, uris: set<string>, exact: bool, ring: SymbolRing) {
    forall text, x {:trigger TextKey(env, text), env.formatOf(x)} ::
      x in uris && TextKey(env, text) in ring.entries && env.extract(text, env.formatOf(x)).Some? ==>
        Same(exact, ring.entries[TextKey(env, text)].value, env.extract(text, env.formatOf(x)).value)
  }

  ghost predicate WorkspaceOk(env: Env, uris: set<string>, exact: bool, ring: R.Ring<nat, seq<Flat>>) {
    forall input :: InputOver(uris, input) && env.digest(input) in ring.entries ==>
      Same(exact, ring.entries[env.digest(input)].value, FlatDirect(env, input))
  }

  ghost predicate FilteredOk(env: Env, uris: set<string>, exact: bool, ring: R.Ring<(nat, nat), seq<Symbol>>) {
    forall input, needle {:trigger env.digest(input), env.hash(needle)} ::
      InputOver(uris, input) && (env.digest(input), env.hash(needle)) in ring.entries ==>
        Same(exact, ring.entries[(env.digest(input), env.hash(needle))].value, Direct(env, input, needle))
  }

  ghost predicate CachesOk(env: Env, uris: set<string>, exact: bool, c: Caches) {
    SymbolsOk(env, uris, exact, c.symbols) && WorkspaceOk(env, uris, exact, c.workspace)
      && FilteredOk(env, uris, exact, c.filtered)
  }

  lemma SymbolThrough(env: Env, uris: set<string>, exact: bool, ring: SymbolRing, uri: string, text: string)
    requires CollisionFree(env) && FormatsAgree(env, uris, exact) && SymbolsOk(env, uris, exact, ring)
    requires uri in uris && env.extract(text, env.formatOf(uri)).Some?
    ensures var raws := env.extract(text, env.formatOf(uri)).value;
      var r := Through(SYMBOL_SLOTS, ring, TextKey(env, text), raws);
      SymbolsOk(env, uris, exact, r.0) && Same(exact, r.1, raws)
  {
    var raws := env.extract(text, env.formatOf(uri)).value;
    var r := Through(SYMBOL_SLOTS, ring, TextKey(env, text), raws);
    assert FormatsAgreeOn(env, uris, exact, text);
    forall other, x | x in uris && TextKey(env, other) in r.0.entries && env.extract(other, env.formatOf(x)).Some?
      ensures Same(exact, r.0.entries[TextKey(env, other)].value, env.extract(other, env.formatOf(x)).value)
    {
      if TextKey(env, other) !in ring.entries {
        assert other == text;
      }
    }
  }

  lemma ConcatSame(exact: bool, a: seq<Flat>, b: seq<Flat>, c: seq<Flat>, d: seq<Flat>)
    requires Same(exact, a, b) && Same(exact, c, d)
    ensures Same(exact, a + c, b + d)
  {
  }

  lemma {:induction false} DocsThroughExact(env: Env, uris: set<string>, exact: bool, ring: SymbolRing,
      input: seq<(string, string)>)
    requires CollisionFree(env) && FormatsAgree(env, uris, exact) && SymbolsOk(env, uris, exact, ring)
    requires InputOver(uris, input)
    ensures SymbolsOk(env, uris, exact, DocsThrough(env, ring, input).0)
    ensures Same(exact, DocsThrough(env, ring, input).1, DocsDirect(env, input))
  {
    if input != [] {
      var front := input[..|input| - 1];
      var (uri, text) := input[|input| - 1];
      assert input[|input| - 1].0 in uris;
      DocsThroughExact(env, uris, exact, ring, front);
      var raws := env.extract(text, env.formatOf(uri));
      if raws.Some? {
        var before := DocsThrough(env, ring, front);
        SymbolThrough(env, uris, exact, before.0, uri, text);
        var shared := Through(SYMBOL_SLOTS, before.0, TextKey(env, text), raws.value).1;
        TagSame(exact, uri, shared, raws.value);
        ConcatSame(exact, before.1, DocsDirect(env, front), Tag(uri, shared), Tag(uri, raws.value));
      } else {
        assert DocsDirect(env, front) + [] == DocsDirect(env, front);
      }
    }
  }

  lemma {:induction false} DiskThroughExact(env: Env, uris: set<string>, exact: bool, ring: SymbolRing,
      seen: set<string>, disk: seq<DiskFile>)
    requires CollisionFree(env) && FormatsAgree(env, uris, exact) && SymbolsOk(env, uris, exact, ring)
    requires DiskOver(uris, disk)
    ensures SymbolsOk(env, uris, exact, DiskThrough(env, ring, seen, disk).0)
    ensures Same(exact, DiskThrough(env, ring, seen, disk).1, DiskDirect(env, seen, disk))
  {
    if disk != [] {
      var front, f := disk[..|disk| - 1], disk[|disk| - 1];
      assert f.uri in uris;
      DiskThroughExact(env, uris, exact, ring, seen, front);
      var raws := if f.uri in seen || f.text.None? then None else env.extract(f.text.value, env.formatOf(f.uri));
      if raws.Some? {
        var before := DiskThrough(env, ring, seen, front);
        SymbolThrough(env, uris, exact, before.0, f.uri, f.text.value);
        var shared := Through(SYMBOL_SLOTS, before.0, TextKey(env, f.text.value), raws.value).1;
        TagSame(exact, f.uri, shared, raws.value);
        ConcatSame(exact, before.1, DiskDirect(env, seen, front), Tag(f.uri, shared), Tag(f.uri, raws.value));
      } else {
        assert DiskDirect(env, seen, front) + [] == DiskDirect(env, seen, front);
      }
    }
  }

  lemma FlatThroughExact(env: Env, uris: set<string>, exact: bool, ring: SymbolRing, input: seq<(string, string)>)
    requires CollisionFree(env) && FormatsAgree(env, uris, exact) && SymbolsOk(env, uris, exact, ring)
    requires InputOver(uris, input) && DiskOver(uris, env.disk)
    ensures SymbolsOk(env, uris, exact, FlatThrough(env, ring, input).0)
    ensures Same(exact, FlatThrough(env, ring, input).1, FlatDirect(env, input))
  {
    DocsThroughExact(env, uris, exact, ring, input);
    var open := DocsThrough(env, ring, input);
    DiskThroughExact(env, uris, exact, open.0, Seen(env, input), env.disk);
    var closed := DiskThrough(env, open.0, Seen(env, input), env.disk);
    var docs, disk := DocsDirect(env, input), DiskDirect(env, Seen(env, input), env.disk);
    ConcatSame(exact, open.1, docs, closed.1, disk);
    SortSame(exact, open.1 + closed.1, docs + disk);
  }

  lemma WorkspaceThrough(env: Env, uris: set<string>, exact: bool, ring: R.Ring<nat, seq<Flat>>,
      input: seq<(string, string)>, value: seq<Flat>)
    requires CollisionFree(env) && WorkspaceOk(env, uris, exact, ring) && InputOver(uris, input)
    requires env.digest(input) !in ring.entries ==> Same(exact, value, FlatDirect(env, input))
    ensures var r := Through(WORKSPACE_SLOTS, ring, env.digest(input), value);
      WorkspaceOk(env, uris, exact, r.0) && Same(exact, r.1, FlatDirect(env, input))
  {
  }

  lemma FilteredThrough(env: Env, uris: set<string>, exact: bool, ring: R.Ring<(nat, nat), seq<Symbol>>,
      input: seq<(string, string)>,
      needle: string, value: seq<Symbol>)
    requires CollisionFree(env) && FilteredOk(env, uris, exact, ring) && InputOver(uris, input)
    requires Same(exact, value, Direct(env, input, needle))
    ensures var r := Through(FILTERED_SLOTS, ring, (env.digest(input), env.hash(needle)), value);
      FilteredOk(env, uris, exact, r.0) && Same(exact, r.1, Direct(env, input, needle))
  {
  }

  /** One search through correct caches answers like the direct computation and leaves them correct:
      to the letter if the formats agree to the letter, up to the order of ties otherwise. */
  lemma ComputeSharedExact(env: Env, uris: set<string>, exact: bool, c: Caches, input: seq<(string, string)>,
      needle: string)
    requires CollisionFree(env) && FormatsAgree(env, uris, exact) && CachesOk(env, uris, exact, c)
    requires InputOver(uris, input) && DiskOver(uris, env.disk)
    ensures var r := ComputeShared(env, c, input, env.digest(input), needle);
      CachesOk(env, uris, exact, r.0) && Same(exact, r.1, Direct(env, input, needle))
  {
    var fp := env.digest(input);
    var key := (fp, env.hash(needle));
    if key !in c.filtered.entries {
      FlatThroughExact(env, uris, exact, c.symbols, input);
      var built := if fp in c.workspace.entries then [] else FlatThrough(env, c.symbols, input).1;
      WorkspaceThrough(env, uris, exact, c.workspace, input, built);
      var flat := Through(WORKSPACE_SLOTS, c.workspace, fp, built).1;
      FilteredSame(exact, flat, FlatDirect(env, input), needle);
      FilteredThrough(env, uris, exact, c.filtered, input, needle, Filtered(flat, needle));
    }
  }

  /** A search none of whose keys is cached is fresh whatever the other caches hold. */
  lemma UncachedIsFresh(env: Env, uris: set<string>, exact: bool, c: Caches, input: seq<(string, string)>,
      needle: string)
    requires CollisionFree(env) && FormatsAgree(env, uris, exact) && SymbolsOk(env, uris, exact, c.symbols)
    requires InputOver(uris, input) && DiskOver(uris, env.disk)
    requires env.digest(input) !in c.workspace.entries && (env.digest(input), env.hash(needle)) !in c.filtered.entries
    ensures Same(exact, ComputeShared(env, c, input, env.digest(input), needle).1, Direct(env, input, needle))
  {
    FlatThroughExact(env, uris, exact, c.symbols, input);
    FilteredSame(exact, FlatThrough(env, c.symbols, input).1, FlatDirect(env, input), needle);
  }

  // ---------------------------------------------------------------- whole sessions

  datatype Event = Edit(event: D.Event) | Search(addr: nat, query: string)

  datatype State = State(session: D.Session, caches: Caches)

  const EMPTY: Caches := Caches(R.Ring(map[], []), R.Ring(map[], []), R.Ring(map[], []))

  const START: State := State(D.Session(map[], None), EMPTY)

  /** The list of symbols an undisturbed search returns and the state it leaves. */
  ghost function Searched(env: Env, s: State, addr: nat, query: string): (State, seq<Symbol>) {
    var session := D.Step(env.digest, s.session, D.Ask(addr));
    var input := D.InputOfListing(D.DocsAt(s.session, addr));
    var (caches, result) := ComputeShared(env, s.caches, input, session.slot.value.fingerprint, Needle(query));
    (State(session, caches), result)
  }

  ghost function Step(env: Env, s: State, e: Event): State {
    match e
    case Edit(event) => s.(session := D.Step(env.digest, s.session, event))
    case Search(addr, query) => Searched(env, s, addr, query).0
  }

  ghost function Run(env: Env, s: State, events: seq<Event>): State
    decreases |events|
  {
    if events == [] then s else Run(env, Step(env, s, events[0]), events[1..])
  }

  /** The edit opens or changes one of the uris, and version and length determine its text. */
  predicate Conforms(uris: set<string>, textOf: D.TextOf, e: Event) {
    e.Edit? ==> D.Conforms(textOf, e.event) && (e.event.Open? || e.event.Update? ==> e.event.uri in uris)
  }

  ghost predicate SessionOver(uris: set<string>, textOf: D.TextOf, events: seq<Event>) {
    forall i :: 0 <= i < |events| ==> Conforms(uris, textOf, events[i])
  }

  ghost predicate Inv(env: Env, uris: set<string>, exact: bool, textOf: D.TextOf, s: State) {
    && D.Inv(env.digest, textOf, s.session) && CachesOk(env, uris, exact, s.caches)
    && forall a :: a in s.session.stores ==> s.session.stores[a].Keys <= uris
  }

  lemma ListedOver(docs: D.Docs, uris: set<string>)
    requires docs.Keys <= uris
    ensures InputOver(uris, D.InputOfListing(docs))
  {
    D.ListingInDocs(docs);
  }

  /** What a search answers, as the fresh list would have it. */
  ghost predicate Fresh(env: Env, exact: bool, s: State, addr: nat, query: string) {
    Same(exact, Searched(env, s, addr, query).1,
      Direct(env, D.InputOfListing(D.DocsAt(s.session, addr)), Needle(query)))
  }

  lemma SearchExact(env: Env, uris: set<string>, exact: bool, textOf: D.TextOf, s: State, addr: nat, query: string)
    requires CollisionFree(env) && FormatsAgree(env, uris, exact) && DiskOver(uris, env.disk)
    requires Inv(env, uris, exact, textOf, s)
    ensures Inv(env, uris, exact, textOf, Searched(env, s, addr, query).0) && Fresh(env, exact, s, addr, query)
  {
    var docs := D.DocsAt(s.session, addr);
    D.StepInv(env.digest, textOf, s.session, D.Ask(addr));
    assert D.DocsConform(textOf, addr, docs);
    if D.Accepts(s.session.slot, addr, docs) {
      D.AcceptedIsExact(env.digest, textOf, s.session.slot.value, addr, docs);
    }
    ListedOver(docs, uris);
    ComputeSharedExact(env, uris, exact, s.caches, D.InputOfListing(docs), Needle(query));
  }

  lemma {:induction false} RunInv(env: Env, uris: set<string>, exact: bool, textOf: D.TextOf, s: State,
      events: seq<Event>)
    requires CollisionFree(env) && FormatsAgree(env, uris, exact) && DiskOver(uris, env.disk)
    requires Inv(env, uris, exact, textOf, s)
    requires SessionOver(uris, textOf, events)
    ensures Inv(env, uris, exact, textOf, Run(env, s, events))
    decreases |events|
  {
    if events != [] {
      var e := events[0];
      assert Conforms(uris, textOf, e);
      if e.Edit? {
        D.StepInv(env.digest, textOf, s.session, e.event);
      } else {
        SearchExact(env, uris, exact, textOf, s, e.addr, e.query);
      }
      RunInv(env, uris, exact, textOf, Step(env, s, e), events[1..]);
    }
  }

  /** After any session of edits and undisturbed searches over uris whose formats agree, with a fixed
      disk, versions that determine texts and hashes that do not collide, a search returns the fresh
      filtered, sorted list. */
  lemma SearchesAreFresh(env: Env, uris: set<string>, exact: bool, textOf: D.TextOf, events: seq<Event>, addr: nat,
      query: string)
    requires CollisionFree(env) && FormatsAgree(env, uris, exact) && DiskOver(uris, env.disk)
    requires SessionOver(uris, textOf, events)
    ensures Fresh(env, exact, Run(env, START, events), addr, query)
  {
    RunInv(env, uris, exact, textOf, START, events);
    SearchExact(env, uris, exact, textOf, Run(env, START, events), addr, query);
  }

  // ---------------------------------------------------------------- exactly the agreeing formats

  /** Every search of every session over the uris returns the fresh symbols, up to the order of ties. */
  ghost predicate AlwaysFresh(env: Env, uris: set<string>) {
    forall textOf, events, addr, query :: SessionOver(uris, textOf, events) ==>
      Fresh(env, false, Run(env, START, events), addr, query)
  }

  lemma AgreeingIsFresh(env: Env, uris: set<string>)
    requires CollisionFree(env) && DiskOver(uris, env.disk) && FormatsAgree(env, uris, false)
    ensures AlwaysFresh(env, uris)
  {
    forall textOf, events, addr, query | SessionOver(uris, textOf, events)
      ensures Fresh(env, false, Run(env, START, events), addr, query)
    {
      SearchesAreFresh(env, uris, false, textOf, events, addr, query);
    }
  }

  lemma NotAlwaysFresh(env: Env, uris: set<string>, textOf: D.TextOf, events: seq<Event>, addr: nat, query: string)
    requires SessionOver(uris, textOf, events) && !Fresh(env, false, Run(env, START, events), addr, query)
    ensures !AlwaysFresh(env, uris)
  {
  }

  lemma DisagreeingIsNot(env: Env, uris: set<string>, text: string)
    requires !FormatsAgreeOn(env, uris, false, text)
    ensures !AlwaysFresh(env, uris)
  {
    var x, y :| x in uris && y in uris && env.extract(text, env.formatOf(x)).Some?
      && env.extract(text, env.formatOf(y)).Some?
      && multiset(env.extract(text, env.formatOf(x)).value) != multiset(env.extract(text, env.formatOf(y)).value);
    O.LeqTotal(x, y);
    var u, w := if O.Leq(x, y) then x else y, if O.Leq(x, y) then y else x;
    TwoFormatsCollide(env, uris, text, u, w);
    NotAlwaysFresh(env, uris, (a: nat, n: string, v: int, l: nat) => text, TwoOpens(text, u, w), 0, "");
  }

  /** Searches are fresh in every session exactly if the formats agree on every text. */
  lemma FormatsExactly(env: Env, uris: set<string>)
    requires CollisionFree(env) && DiskOver(uris, env.disk)
    ensures AlwaysFresh(env, uris) <==> FormatsAgree(env, uris, false)
  {
    if FormatsAgree(env, uris, false) {
      AgreeingIsFresh(env, uris);
    } else {
      var text :| !FormatsAgreeOn(env, uris, false, text);
      DisagreeingIsNot(env, uris, text);
    }
  }

  function TwoOpens(text: string, x: string, y: string): seq<Event> {
    [Edit(D.Open(0, x, 1, text)), Edit(D.Open(0, y, 1, text))]
  }

  /** Two formats that disagree on one text: with a document of each open, a search for everything gives
      the second the symbols of the first one's format. */
  lemma TwoFormatsCollide(env: Env, uris: set<string>, text: string, x: string, y: string)
    requires O.Less(x, y) && x in uris && y in uris
    requires env.extract(text, env.formatOf(x)).Some? && env.extract(text, env.formatOf(y)).Some?
    requires multiset(env.extract(text, env.formatOf(x)).value) != multiset(env.extract(text, env.formatOf(y)).value)
    ensures SessionOver(uris, (a: nat, n: string, v: int, l: nat) => text, TwoOpens(text, x, y))
    ensures !Fresh(env, false, Run(env, START, TwoOpens(text, x, y)), 0, "")
  {
    TwoOpensConform(uris, text, x, y);
    SearchTwo(env, text, x, y);
    var input := [(x, text), (y, text)];
    CollidingFlats(env, text, x, y);
    ShownDiffer(FlatThrough(env, EMPTY.symbols, input).1, FlatDirect(env, input), y,
      env.extract(text, env.formatOf(x)).value, env.extract(text, env.formatOf(y)).value);
  }

  lemma TwoOpensConform(uris: set<string>, text: string, x: string, y: string)
    requires x in uris && y in uris
    ensures SessionOver(uris, (a: nat, n: string, v: int, l: nat) => text, TwoOpens(text, x, y))
  {
  }

  lemma ShownDiffer(a: seq<Flat>, b: seq<Flat>, y: string, v: seq<Raw>, w: seq<Raw>)
    requires forall r: Raw :: multiset(a)[Flat(y, r)] == multiset(v)[r] && multiset(b)[Flat(y, r)] == multiset(w)[r]
    requires multiset(v) != multiset(w)
    ensures !Same(false, Filtered(a, ""), Filtered(b, ""))
  {
    assert (forall r :: multiset(v)[r] == multiset(w)[r]) ==> multiset(v) == multiset(w);
    var r :| multiset(v)[r] != multiset(w)[r];
    FilteredEverything(a, y, r);
    FilteredEverything(b, y, r);
  }

  lemma SearchTwo(env: Env, text: string, x: string, y: string)
    requires O.Less(x, y)
    ensures
      var input := [(x, text), (y, text)];
      Fresh(env, false, Run(env, START, TwoOpens(text, x, y)), 0, "") <==>
      Same(false, Filtered(FlatThrough(env, EMPTY.symbols, input).1, ""), Filtered(FlatDirect(env, input), ""))
  {
    var s := AfterTwoOpens(env, text, x, y);
    assert Needle("") == "";
    FirstSearch(env, s, [(x, text), (y, text)]);
  }

  lemma FirstSearch(env: Env, s: State, input: seq<(string, string)>)
    requires s.caches == EMPTY && s.session.slot == None && D.InputOfListing(D.DocsAt(s.session, 0)) == input
    requires Needle("") == ""
    ensures Searched(env, s, 0, "").1 == Filtered(FlatThrough(env, EMPTY.symbols, input).1, "")
  {
  }

  lemma AfterTwoOpens(env: Env, text: string, x: string, y: string) returns (s: State)
    requires O.Less(x, y)
    ensures Run(env, START, TwoOpens(text, x, y)) == s && s.caches == EMPTY && s.session.slot == None
    ensures D.InputOfListing(D.DocsAt(s.session, 0)) == [(x, text), (y, text)]
  {
    var e1, e2 := Edit(D.Open(0, x, 1, text)), Edit(D.Open(0, y, 1, text));
    assert [e1, e2][1..] == [e2] && [e2][1..] == [];
    var s1 := Step(env, START, e1);
    s := Step(env, s1, e2);
    assert Run(env, START, [e1, e2]) == Run(env, s1, [e2]) == Run(env, s, []) == s;
    var docs := map[x := D.Doc(1, text), y := D.Doc(1, text)];
    assert D.DocsAt(s.session, 0) == docs;
    D.TwoListed(docs, x, y);
  }

  lemma FilteredEverything(flat: seq<Flat>, uri: string, r: Raw)
    ensures multiset(Filtered(flat, ""))[Symbol(r.name, r.kind, r.container, uri, r.start, r.end)] ==
      multiset(flat)[Flat(uri, r)]
  {
    var s := Symbol(r.name, r.kind, r.container, uri, r.start, r.end);
    OrdersAreWeak();
    O.SortStableFacts(SymbolBefore, Matching(flat, ""));
    assert MatchesAt(s.name, "", 0);
    MatchingCount(flat, "", s);
    assert FlatOf(s) == Flat(uri, r);
  }

  lemma {:induction false} DiskElsewhere(env: Env, ring: SymbolRing, seen: set<string>, disk: seq<DiskFile>, f: Flat)
    requires f.uri in seen
    ensures f !in DiskThrough(env, ring, seen, disk).1 && f !in DiskDirect(env, seen, disk)
  {
    if disk != [] {
      DiskElsewhere(env, ring, seen, disk[..|disk| - 1], f);
    }
  }

  /** How often a symbol of an open document is listed: as often as its document's part has it. */
  lemma OpenCount(env: Env, ring: SymbolRing, input: seq<(string, string)>, f: Flat)
    requires f.uri in Seen(env, input)
    ensures multiset(FlatThrough(env, ring, input).1)[f] == multiset(DocsThrough(env, ring, input).1)[f]
    ensures multiset(FlatDirect(env, input))[f] == multiset(DocsDirect(env, input))[f]
  {
    OrdersAreWeak();
    var open := DocsThrough(env, ring, input);
    var closed := DiskThrough(env, open.0, Seen(env, input), env.disk);
    DiskElsewhere(env, open.0, Seen(env, input), env.disk, f);
    O.SortStableFacts(FlatBefore, open.1 + closed.1);
    O.SortStableFacts(FlatBefore, DocsDirect(env, input) + DiskDirect(env, Seen(env, input), env.disk));
    assert multiset(closed.1)[f] == 0 && multiset(DiskDirect(env, Seen(env, input), env.disk))[f] == 0;
  }

  lemma DocsSnoc(env: Env, ring: SymbolRing, front: seq<(string, string)>, uri: string, text: string)
    requires env.extract(text, env.formatOf(uri)).Some?
    ensures
      var raws, was := env.extract(text, env.formatOf(uri)).value, DocsThrough(env, ring, front);
      var now := Through(SYMBOL_SLOTS, was.0, TextKey(env, text), raws);
      && DocsThrough(env, ring, front + [(uri, text)]) == (now.0, was.1 + Tag(uri, now.1))
      && DocsDirect(env, front + [(uri, text)]) == DocsDirect(env, front) + Tag(uri, raws)
  {
    var input := front + [(uri, text)];
    assert input[..|input| - 1] == front && input[|input| - 1] == (uri, text);
  }

  lemma CollidingFlats(env: Env, text: string, x: string, y: string)
    requires x != y && env.extract(text, env.formatOf(x)).Some? && env.extract(text, env.formatOf(y)).Some?
    ensures
      var input := [(x, text), (y, text)];
      forall r: Raw ::
        && multiset(FlatThrough(env, EMPTY.symbols, input).1)[Flat(y, r)] ==
          multiset(env.extract(text, env.formatOf(x)).value)[r]
        && multiset(FlatDirect(env, input))[Flat(y, r)] == multiset(env.extract(text, env.formatOf(y)).value)[r]
  {
    var one, input := [(x, text)], [(x, text), (y, text)];
    assert one == [] + [(x, text)] && input == one + [(y, text)];
    DocsSnoc(env, EMPTY.symbols, [], x, text);
    DocsSnoc(env, EMPTY.symbols, one, y, text);
    var v, w := env.extract(text, env.formatOf(x)).value, env.extract(text, env.formatOf(y)).value;
    assert DocsThrough(env, EMPTY.symbols, input).1 == [] + Tag(x, v) + Tag(y, v);
    assert DocsDirect(env, input) == [] + Tag(x, v) + Tag(y, w);
    assert input[1] == (y, text);
    forall r: Raw
      ensures multiset(FlatThrough(env, EMPTY.symbols, input).1)[Flat(y, r)] == multiset(v)[r]
      ensures multiset(FlatDirect(env, input))[Flat(y, r)] == multiset(w)[r]
    {
      var f := Flat(y, r);
      OpenCount(env, EMPTY.symbols, input, f);
      TagCount(x, v, f);
      TagCount(y, v, f);
      TagCount(y, w, f);
    }
  }

  // ---------------------------------------------------------------- the disk

  /** No key mentions the disk, so a repeated search keeps its answer when only the disk changed. */
  lemma RepeatedSearchIgnoresDisk(env: Env, disk: seq<DiskFile>, c: Caches, input: seq<(string, string)>,
      needle: string)
    ensures
      var first := ComputeShared(env, c, input, env.digest(input), needle);
      ComputeShared(env.(disk := disk), first.0, input, env.digest(input), needle).1 == first.1
  {
  }

  /** And the kept answer is stale: search an empty workspace, put a model file on the disk, search
      again. */
  lemma NewFileGoesUnseen(env: Env, uri: string, text: string)
    requires env.extract(text, env.formatOf(uri)).Some? && env.extract(text, env.formatOf(uri)).value != []
    ensures
      var before, after := env.(disk := []), env.(disk := [DiskFile(uri, Some(text))]);
      var first := ComputeShared(before, EMPTY, [], env.digest([]), "");
      ComputeShared(after, first.0, [], env.digest([]), "").1 == [] != Direct(after, [], "")
  {
    var before, after := env.(disk := []), env.(disk := [DiskFile(uri, Some(text))]);
    RepeatedSearchIgnoresDisk(before, after.disk, EMPTY, [], "");
    assert FlatThrough(before, EMPTY.symbols, []).1 == O.SortStable(FlatBefore, [] + []) == [];
    assert Filtered([], "") == [];
    var raws := env.extract(text, env.formatOf(uri)).value;
    assert after.disk[..0] == [] && DiskDirect(after, {}, after.disk) == [] + Tag(uri, raws);
    assert Seen(after, []) == {};
    OrdersAreWeak();
    var all := DocsDirect(after, []) + DiskDirect(after, Seen(after, []), after.disk);
    assert all == Tag(uri, raws);
    O.SortStableFacts(FlatBefore, all);
    TagCount(uri, raws, Flat(uri, raws[0]));
    FilteredEverything(FlatDirect(after, []), uri, raws[0]);
    assert multiset(raws)[raws[0]] > 0;
  }
}
