/** Symbol searches in steps: the fingerprint, the lookups in two caches, the build that reads documents
    and files one at a time through a third cache, and the two insertions; interleaved with edits of
    documents, changes on the disk and other searches. */
module SearchRaces {
  import opened Common
  import O = Ordering
  import D = DocStore
  import F = FingerprintRaces
  import R = RingCache
  import Y = Symbols

  /** The readable model files by uri. */
  type Disk = map<string, string>

  datatype Job = Job(addr: nat, needle: string, start: nat)

  /** The files listed at disk instant `listedAt`, when the documents were done at `docsDone`, and those
      read so far with the instants of their reading. */
  datatype FileScan = FileScan(names: seq<string>, listedAt: nat, docsDone: nat, files: seq<Y.DiskFile>, at: seq<nat>)

  /** Symbols extracted but not yet in the symbol cache. */
  datatype Pending = Pending(uri: string, text: string, raws: seq<Y.Raw>)

  datatype Build = Build(scan: F.Scan, files: Option<FileScan>, pending: Option<Pending>, out: seq<Y.Flat>)

  /** What a finished build read, and the call it belonged to. History only: no step looks at it. */
  datatype Source = Source(job: Job, stamp: F.Print, scan: F.Scan, files: FileScan)

  datatype Entry<+V> = Entry(value: V, src: Source)

  datatype Caches = Caches(
    symbols: Y.SymbolRing, workspace: R.Ring<nat, Entry<seq<Y.Flat>>>, filtered: R.Ring<(nat, nat),
      Entry<seq<Y.Symbol>>>)

  datatype Call =
    | Idle
    | Printing(job: Job, p: F.Print)
    | Wanting(job: Job, p: F.Print)
    | Building(job: Job, p: F.Print, b: Build)
    | Built(job: Job, p: F.Print, flat: Entry<seq<Y.Flat>>)
    | Holding(job: Job, p: F.Print, flat: Entry<seq<Y.Flat>>)
    | Done(job: Job, p: F.Print, result: Entry<seq<Y.Symbol>>)

  datatype State = State(hist: F.History, disks: seq<Disk>, sh: F.Shared, caches: Caches, calls: seq<Call>)

  /** A search starts with its trimmed and lowered query. */
  datatype Event =
    | Edit(edit: D.Event)
    | SetDisk(disk: Disk)
    | Start(t: nat, addr: nat, needle: string)
    | Go(t: nat)

  // ---------------------------------------------------------------- the build, one read at a time

  function Texts(scan: F.Scan): seq<(string, string)> {
    F.TextsOf(F.ScanReads(scan))
  }

  /** The symbols of one text: from the cache, or extracted and waiting to be inserted. */
  function Absorbed(env: Y.Env, ring: Y.SymbolRing, b: Build, uri: string, text: string): Build {
    match env.extract(text, env.formatOf(uri))
    case None => b
    case Some(raws) =>
      var key := Y.TextKey(env, text);
      if key in ring.entries then b.(out := b.out + Y.Tag(uri, ring.entries[key].value))
      else b.(pending := Some(Pending(uri, text, raws)))
  }

  predicate Finished(b: Build) {
    b.pending.None? && F.Complete(b.scan) && b.files.Some? && |b.files.value.files| >= |b.files.value.names|
  }

  function NextFile(disks: seq<Disk>, fs: FileScan): Y.DiskFile
    requires disks != [] && |fs.files| < |fs.names|
  {
    var u, disk := fs.names[|fs.files|], disks[|disks| - 1];
    Y.DiskFile(u, if u in disk then Some(disk[u]) else None)
  }

  ghost function BuildStep(env: Y.Env, hist: F.History, disks: seq<Disk>, ring: Y.SymbolRing, addr: nat,
      b: Build): (Y.SymbolRing, Build)
    requires hist != [] && disks != [] && !Finished(b)
  {
    if b.pending.Some? then
      var pd := b.pending.value;
      var (next, shared) := Y.Through(Y.SYMBOL_SLOTS, ring, Y.TextKey(env, pd.text), pd.raws);
      (next, b.(pending := None, out := b.out + Y.Tag(pd.uri, shared)))
    else if !F.Complete(b.scan) then
      var uri := b.scan.uris[|b.scan.visits|];
      var doc := F.Shown(F.Current(hist, addr), uri);
      var read := b.(scan := F.Visited(hist, addr, b.scan));
      (ring, if doc.None? then read else Absorbed(env, ring, read, uri, doc.value.text))
    else if b.files.None? then
      (ring, b.(files := Some(FileScan(O.Listing(disks[|disks| - 1].Keys), |disks| - 1, F.Now(hist), [], []))))
    else
      var fs := b.files.value;
      var f := NextFile(disks, fs);
      var read := b.(files := Some(fs.(files := fs.files + [f], at := fs.at + [|disks| - 1])));
      (ring, if f.uri in Y.Seen(env, Texts(b.scan)) || f.text.None? then read
        else Absorbed(env, ring, read, f.uri, f.text.value))
  }

  // ---------------------------------------------------------------- steps of a search

  ghost function SearchStep(env: Y.Env, s: State, t: nat): State
    requires s.hist != [] && s.disks != [] && t < |s.calls|
  {
    match s.calls[t]
    case Idle => s
    case Done(_, _, _) => s
    case Printing(job, p) =>
      if !p.Printed? then
        var (sh, q) := F.PrintStep(env.digest, s.hist, s.sh, job.addr, p);
        s.(sh := sh, calls := s.calls[t := Printing(job, q)])
      else
        var key := (p.fp, env.hash(job.needle));
        if key in s.caches.filtered.entries
          then s.(calls := s.calls[t := Done(job, p, s.caches.filtered.entries[key].value)])
        else s.(calls := s.calls[t := Wanting(job, p)])
    case Wanting(job, p) =>
      if !p.Printed? then s
      else if p.fp in s.caches.workspace.entries
        then s.(calls := s.calls[t := Holding(job, p, s.caches.workspace.entries[p.fp].value)])
      else s.(calls := s.calls[t := Building(job, p, Build(F.Listed(s.hist, job.addr), None, None, []))])
    case Building(job, p, b) =>
      if Finished(b) then
        s.(calls := s.calls[t := Built(job, p,
          Entry(O.SortStable(Y.FlatBefore, b.out), Source(job, p, b.scan, b.files.value)))])
      else
        var (ring, next) := BuildStep(env, s.hist, s.disks, s.caches.symbols, job.addr, b);
        s.(caches := s.caches.(symbols := ring), calls := s.calls[t := Building(job, p, next)])
    case Built(job, p, flat) =>
      if !p.Printed? then s else
      var (ring, shared) := Y.Through(Y.WORKSPACE_SLOTS, s.caches.workspace, p.fp, flat);
      s.(caches := s.caches.(workspace := ring), calls := s.calls[t := Holding(job, p, shared)])
    case Holding(job, p, flat) =>
      if !p.Printed? then s else
      var own := Entry(Y.Filtered(flat.value, job.needle), flat.src);
      var (ring, shared) := Y.Through(Y.FILTERED_SLOTS, s.caches.filtered, (p.fp, env.hash(job.needle)), own);
      s.(caches := s.caches.(filtered := ring), calls := s.calls[t := Done(job, p, shared)])
  }

  ghost function Step(env: Y.Env, s: State, e: Event): (r: State)
    requires s.hist != [] && s.disks != []
    ensures r.hist != [] && r.disks != [] && |r.calls| == |s.calls|
  {
    match e
    case Edit(edit) => s.(hist := s.hist + [F.Edited(s.hist[|s.hist| - 1], edit)])
    case SetDisk(disk) => s.(disks := s.disks + [disk])
    case Start(t, addr, needle) =>
      if t >= |s.calls| || !(s.calls[t].Idle? || s.calls[t].Done?) then s else
      (match F.PrintStart(s.hist, s.sh, t, addr)
       case None => s
       case Some(r) => s.(sh := r.0, calls := s.calls[t := Printing(Job(addr, needle, F.Now(s.hist)), r.1)]))
    case Go(t) => if t < |s.calls| then SearchStep(env, s, t) else s
  }

  ghost function Run(env: Y.Env, s: State, events: seq<Event>): (r: State)
    requires s.hist != [] && s.disks != []
    ensures r.hist != [] && r.disks != [] && |r.calls| == |s.calls|
    decreases |events|
  {
    if events == [] then s else Run(env, Step(env, s, events[0]), events[1..])
  }

  // ---------------------------------------------------------------- what a build has read

  ghost predicate HistOver(uris: set<string>, hist: F.History) {
    forall i, a :: 0 <= i < |hist| ==> F.DocsOf(hist[i], a).Keys <= uris
  }

  ghost predicate DisksOver(uris: set<string>, disks: seq<Disk>) {
    forall i :: 0 <= i < |disks| ==> disks[i].Keys <= uris
  }

  ghost predicate FilesOk(disks: seq<Disk>, fs: FileScan) {
    && fs.listedAt < |disks| && fs.names == O.Listing(disks[fs.listedAt].Keys) && |fs.files| == |fs.at| <= |fs.names|
    && forall i :: 0 <= i < |fs.files| ==>
         && fs.listedAt <= fs.at[i] < |disks|
         && fs.files[i] == Y.DiskFile(fs.names[i],
           if fs.names[i] in disks[fs.at[i]] then Some(disks[fs.at[i]][fs.names[i]]) else None)
  }

  ghost predicate DocsDone(hist: F.History, scan: F.Scan, done: nat) {
    && F.Complete(scan) && scan.listedAt <= done < |hist|
    && forall i :: 0 <= i < |scan.visits| ==> scan.visits[i].at <= done
  }

  function PendingFlat(pd: Option<Pending>): seq<Y.Flat> {
    if pd.None? then [] else Y.Tag(pd.value.uri, pd.value.raws)
  }

  /** The symbols of everything read so far. */
  function Expected(env: Y.Env, scan: F.Scan, files: Option<FileScan>): seq<Y.Flat> {
    Y.DocsDirect(env, Texts(scan)) + if files.None? then []
      else Y.DiskDirect(env, Y.Seen(env, Texts(scan)), files.value.files)
  }

  ghost predicate PendingOk(env: Y.Env, uris: set<string>, pd: Option<Pending>) {
    pd.Some? ==> pd.value.uri in uris && env.extract(pd.value.text, env.formatOf(pd.value.uri)) == Some(pd.value.raws)
  }

  ghost predicate ReadsOk(hist: F.History, disks: seq<Disk>, addr: nat, from: nat, b: Build) {
    && F.ScanOk(hist, addr, from, b.scan)
    && (b.files.Some? ==> FilesOk(disks, b.files.value) && DocsDone(hist, b.scan, b.files.value.docsDone))
  }

  ghost predicate OutputOk(env: Y.Env, uris: set<string>, b: Build) {
    PendingOk(env, uris, b.pending) && b.out + PendingFlat(b.pending) == Expected(env, b.scan, b.files)
  }

  ghost predicate BuildOk(env: Y.Env, uris: set<string>, hist: F.History, disks: seq<Disk>, addr: nat, from: nat,
      b: Build) {
    ReadsOk(hist, disks, addr, from, b) && OutputOk(env, uris, b)
  }

  ghost predicate SourceOk(digest: D.Digest, hist: F.History, disks: seq<Disk>, src: Source) {
    && src.stamp.Printed? && F.PrintedOk(digest, hist, src.job.addr, src.job.start, src.stamp)
    && F.ScanOk(hist, src.job.addr, src.stamp.end, src.scan) && DocsDone(hist, src.scan, src.files.docsDone)
    && FilesOk(disks, src.files) && |src.files.files| == |src.files.names|
  }

  function EnvOf(env: Y.Env, src: Source): Y.Env {
    env.(disk := src.files.files)
  }

  ghost predicate FlatOk(env: Y.Env, hist: F.History, disks: seq<Disk>, fp: nat, e: Entry<seq<Y.Flat>>) {
    && SourceOk(env.digest, hist, disks, e.src) && e.src.stamp.fp == fp
    && e.value == Y.FlatDirect(EnvOf(env, e.src), Texts(e.src.scan))
  }

  ghost predicate AnswerOk(env: Y.Env, hist: F.History, disks: seq<Disk>, fp: nat, needle: string,
      e: Entry<seq<Y.Symbol>>) {
    && SourceOk(env.digest, hist, disks, e.src) && e.src.stamp.fp == fp
    && e.value == Y.Direct(EnvOf(env, e.src), Texts(e.src.scan), needle)
  }

  ghost predicate HashInjective(env: Y.Env) {
    forall a, b :: env.hash(a) == env.hash(b) ==> a == b
  }

  // ---------------------------------------------------------------- build steps

  lemma DocsDirectSnoc(env: Y.Env, input: seq<(string, string)>, uri: string, text: string)
    ensures var raws := env.extract(text, env.formatOf(uri));
      Y.DocsDirect(env, input + [(uri, text)]) == Y.DocsDirect(env, input) + if raws.Some? then Y.Tag(uri, raws.value)
        else []
  {
    var more := input + [(uri, text)];
    assert more[..|more| - 1] == input && more[|more| - 1] == (uri, text);
  }

  lemma DiskDirectSnoc(env: Y.Env, seen: set<string>, files: seq<Y.DiskFile>, f: Y.DiskFile)
    ensures var raws := if f.uri in seen || f.text.None? then None else env.extract(f.text.value, env.formatOf(f.uri));
      Y.DiskDirect(env, seen, files + [f]) == Y.DiskDirect(env, seen, files) + if raws.Some?
        then Y.Tag(f.uri, raws.value) else []
  {
    var more := files + [f];
    assert more[..|more| - 1] == files && more[|more| - 1] == f;
  }

  lemma TextsVisited(hist: F.History, addr: nat, scan: F.Scan)
    requires hist != [] && !F.Complete(scan)
    ensures
      var uri := scan.uris[|scan.visits|];
      var doc := F.Shown(F.Current(hist, addr), uri);
      Texts(F.Visited(hist, addr, scan)) == Texts(scan) + if doc.Some? then [(uri, doc.value.text)] else []
  {
    var n, next := |scan.visits|, F.Visited(hist, addr, scan);
    F.FoundSnoc(next.uris, next.visits, n);
    assert next.visits[..n] == scan.visits && next.visits[..n + 1] == next.visits;
    var doc := F.Shown(F.Current(hist, addr), scan.uris[n]);
    if doc.Some? {
      F.TextsSnoc(F.ScanReads(scan), F.Read(scan.uris[n], doc.value, F.Now(hist)));
    }
  }

  /** Reading one more text, once `b` accounts for everything read before it. */
  lemma AbsorbedOk(env: Y.Env, uris: set<string>, ring: Y.SymbolRing, b: Build, uri: string, text: string,
      before: seq<Y.Flat>)
    requires Y.SymbolsOk(env, uris, true, ring) && uri in uris && b.pending.None? && b.out == before
    ensures
      var r, raws := Absorbed(env, ring, b, uri, text), env.extract(text, env.formatOf(uri));
      && r.scan == b.scan && r.files == b.files && PendingOk(env, uris, r.pending)
      && r.out + PendingFlat(r.pending) == before + if raws.Some? then Y.Tag(uri, raws.value) else []
  {
    var raws := env.extract(text, env.formatOf(uri));
    if raws.Some? {
      var key := Y.TextKey(env, text);
      assert key in ring.entries ==> Y.Same(true, ring.entries[key].value, raws.value);
    }
  }

  lemma PublishOk(env: Y.Env, uris: set<string>, ring: Y.SymbolRing, b: Build)
    requires HashInjective(env) && Y.FormatsAgree(env, uris, true) && Y.SymbolsOk(env, uris, true, ring)
    requires b.pending.Some? && PendingOk(env, uris, b.pending)
    ensures
      var pd := b.pending.value;
      var r := Y.Through(Y.SYMBOL_SLOTS, ring, Y.TextKey(env, pd.text), pd.raws);
      Y.SymbolsOk(env, uris, true, r.0) && r.1 == pd.raws
  {
    var pd := b.pending.value;
    var r := Y.Through(Y.SYMBOL_SLOTS, ring, Y.TextKey(env, pd.text), pd.raws);
    assert Y.FormatsAgreeOn(env, uris, true, pd.text);
    forall other, x | x in uris && Y.TextKey(env, other) in r.0.entries && env.extract(other, env.formatOf(x)).Some?
      ensures Y.Same(true, r.0.entries[Y.TextKey(env, other)].value, env.extract(other, env.formatOf(x)).value)
    {
      if Y.TextKey(env, other) !in ring.entries {
        assert other == pd.text;
      }
    }
  }

  /** Reading `uri` while `before` accounts for the earlier reads, or skipping it. */
  lemma ReadOutput(env: Y.Env, uris: set<string>, ring: Y.SymbolRing, b: Build, uri: string, text: Option<string>,
      before: seq<Y.Flat>)
    requires Y.SymbolsOk(env, uris, true, ring) && b.pending.None? && b.out == before && (text.Some? ==> uri in uris)
    ensures
      var r := if text.None? then b else Absorbed(env, ring, b, uri, text.value);
      var raws := if text.None? then None else env.extract(text.value, env.formatOf(uri));
      && r.scan == b.scan && r.files == b.files && PendingOk(env, uris, r.pending)
      && r.out + PendingFlat(r.pending) == before + if raws.Some? then Y.Tag(uri, raws.value) else []
  {
    if text.Some? {
      AbsorbedOk(env, uris, ring, b, uri, text.value, before);
    }
  }

  lemma DocOutputOk(env: Y.Env, uris: set<string>, hist: F.History, ring: Y.SymbolRing, addr: nat, b: Build)
    requires hist != [] && HistOver(uris, hist) && Y.SymbolsOk(env, uris, true, ring)
    requires OutputOk(env, uris, b) && b.pending.None? && !F.Complete(b.scan) && b.files.None?
    ensures
      var uri := b.scan.uris[|b.scan.visits|];
      var doc := F.Shown(F.Current(hist, addr), uri);
      var read := b.(scan := F.Visited(hist, addr, b.scan));
      var r := if doc.None? then read else Absorbed(env, ring, read, uri, doc.value.text);
      OutputOk(env, uris, r) && r.scan == read.scan && r.files == None
  {
    var uri, scan := b.scan.uris[|b.scan.visits|], F.Visited(hist, addr, b.scan);
    var doc := F.Shown(F.Current(hist, addr), uri);
    var docs := Y.DocsDirect(env, Texts(b.scan));
    TextsVisited(hist, addr, b.scan);
    assert b.out + [] == b.out && docs + [] == docs;
    assert doc.Some? ==> uri in F.DocsOf(hist[|hist| - 1], addr).Keys;
    ReadOutput(env, uris, ring, b.(scan := scan), uri, if doc.Some? then Some(doc.value.text) else None, docs);
    if doc.Some? {
      DocsDirectSnoc(env, Texts(b.scan), uri, doc.value.text);
    } else {
      assert Texts(scan) == Texts(b.scan);
    }
    assert Y.DocsDirect(env, Texts(scan)) + [] == Y.DocsDirect(env, Texts(scan));
  }

  lemma DocStepOk(env: Y.Env, uris: set<string>, hist: F.History, disks: seq<Disk>, ring: Y.SymbolRing, addr: nat,
      from: nat, b: Build)
    requires hist != [] && disks != [] && HistOver(uris, hist) && Y.SymbolsOk(env, uris, true, ring)
    requires BuildOk(env, uris, hist, disks, addr, from, b) && b.pending.None? && !F.Complete(b.scan)
    ensures BuildOk(env, uris, hist, disks, addr, from, BuildStep(env, hist, disks, ring, addr, b).1)
  {
    F.VisitedOk(hist, addr, from, b.scan);
    DocOutputOk(env, uris, hist, ring, addr, b);
  }

  lemma FileOutputOk(env: Y.Env, uris: set<string>, disks: seq<Disk>, ring: Y.SymbolRing, b: Build)
    requires disks != [] && DisksOver(uris, disks) && Y.SymbolsOk(env, uris, true, ring)
    requires OutputOk(env, uris, b) && b.pending.None? && b.files.Some? && |b.files.value.files| < |b.files.value.names|
    ensures
      var fs := b.files.value;
      var f := NextFile(disks, fs);
      var read := b.(files := Some(fs.(files := fs.files + [f], at := fs.at + [|disks| - 1])));
      var r := if f.uri in Y.Seen(env, Texts(b.scan)) || f.text.None? then read
        else Absorbed(env, ring, read, f.uri, f.text.value);
      OutputOk(env, uris, r) && r.scan == b.scan && r.files == read.files
  {
    var fs := b.files.value;
    var f := NextFile(disks, fs);
    var read := b.(files := Some(fs.(files := fs.files + [f], at := fs.at + [|disks| - 1])));
    assert b.out + [] == b.out;
    assert f.text.Some? ==> f.uri in disks[|disks| - 1].Keys;
    FileExpected(env, b.scan, fs, f, |disks| - 1);
    ReadOutput(env, uris, ring, read, f.uri, if f.uri in Y.Seen(env, Texts(b.scan)) then None else f.text,
      Expected(env, b.scan, b.files));
  }

  lemma FileExpected(env: Y.Env, scan: F.Scan, fs: FileScan, f: Y.DiskFile, at: nat)
    ensures
      var raws := if f.uri in Y.Seen(env, Texts(scan)) || f.text.None? then None
        else env.extract(f.text.value, env.formatOf(f.uri));
      Expected(env, scan, Some(fs.(files := fs.files + [f], at := fs.at + [at]))) ==
        Expected(env, scan, Some(fs)) + if raws.Some? then Y.Tag(f.uri, raws.value) else []
  {
    DiskDirectSnoc(env, Y.Seen(env, Texts(scan)), fs.files, f);
  }

  lemma FileStepOk(env: Y.Env, uris: set<string>, hist: F.History, disks: seq<Disk>, ring: Y.SymbolRing, addr: nat,
      from: nat, b: Build)
    requires hist != [] && disks != [] && DisksOver(uris, disks) && Y.SymbolsOk(env, uris, true, ring)
    requires BuildOk(env, uris, hist, disks, addr, from, b) && b.pending.None? && F.Complete(b.scan) && b.files.Some?
    requires |b.files.value.files| < |b.files.value.names|
    ensures BuildOk(env, uris, hist, disks, addr, from, BuildStep(env, hist, disks, ring, addr, b).1)
  {
    NextFileOk(disks, b.files.value);
    FileOutputOk(env, uris, disks, ring, b);
  }

  lemma NextFileOk(disks: seq<Disk>, fs: FileScan)
    requires disks != [] && FilesOk(disks, fs) && |fs.files| < |fs.names|
    ensures FilesOk(disks, fs.(files := fs.files + [NextFile(disks, fs)], at := fs.at + [|disks| - 1]))
  {
  }

  lemma PublishStepOk(env: Y.Env, uris: set<string>, hist: F.History, disks: seq<Disk>, ring: Y.SymbolRing, addr: nat,
      from: nat, b: Build)
    requires HashInjective(env) && Y.FormatsAgree(env, uris, true) && Y.SymbolsOk(env, uris, true, ring)
    requires hist != [] && disks != [] && BuildOk(env, uris, hist, disks, addr, from, b) && b.pending.Some?
    ensures var r := BuildStep(env, hist, disks, ring, addr, b);
      Y.SymbolsOk(env, uris, true, r.0) && BuildOk(env, uris, hist, disks, addr, from, r.1)
  {
    PublishOk(env, uris, ring, b);
    var pd := b.pending.value;
    assert b.out + Y.Tag(pd.uri, pd.raws) + [] == b.out + Y.Tag(pd.uri, pd.raws);
  }

  lemma ListFilesOk(env: Y.Env, uris: set<string>, hist: F.History, disks: seq<Disk>, ring: Y.SymbolRing, addr: nat,
      from: nat, b: Build)
    requires hist != [] && disks != [] && BuildOk(env, uris, hist, disks, addr, from, b)
    requires b.pending.None? && F.Complete(b.scan) && b.files.None?
    ensures BuildOk(env, uris, hist, disks, addr, from, BuildStep(env, hist, disks, ring, addr, b).1)
  {
    assert Expected(env, b.scan, Some(FileScan(O.Listing(disks[|disks| - 1].Keys), |disks| - 1, F.Now(hist), [],
      []))) == Expected(env, b.scan, None);
  }

  lemma BuildStepOk(env: Y.Env, uris: set<string>, hist: F.History, disks: seq<Disk>, ring: Y.SymbolRing, addr: nat,
      from: nat, b: Build)
    requires HashInjective(env) && Y.FormatsAgree(env, uris, true) && Y.SymbolsOk(env, uris, true, ring)
    requires hist != [] && disks != [] && HistOver(uris, hist) && DisksOver(uris, disks)
    requires BuildOk(env, uris, hist, disks, addr, from, b) && !Finished(b)
    ensures var r := BuildStep(env, hist, disks, ring, addr, b);
      Y.SymbolsOk(env, uris, true, r.0) && BuildOk(env, uris, hist, disks, addr, from, r.1)
  {
    if b.pending.Some? {
      PublishStepOk(env, uris, hist, disks, ring, addr, from, b);
    } else if !F.Complete(b.scan) {
      DocStepOk(env, uris, hist, disks, ring, addr, from, b);
    } else if b.files.None? {
      ListFilesOk(env, uris, hist, disks, ring, addr, from, b);
    } else {
      FileStepOk(env, uris, hist, disks, ring, addr, from, b);
    }
  }

  lemma FinishedOk(env: Y.Env, uris: set<string>, hist: F.History, disks: seq<Disk>, job: Job, p: F.Print, b: Build)
    requires p.Printed? && F.PrintedOk(env.digest, hist, job.addr, job.start, p)
    requires BuildOk(env, uris, hist, disks, job.addr, p.end, b) && Finished(b)
    ensures FlatOk(env, hist, disks, p.fp,
      Entry(O.SortStable(Y.FlatBefore, b.out), Source(job, p, b.scan, b.files.value)))
  {
    assert b.out + [] == b.out;
    var src := Source(job, p, b.scan, b.files.value);
    SameDirect(env, EnvOf(env, src), Texts(b.scan), Y.Seen(env, Texts(b.scan)), src.files.files);
    assert Y.Seen(EnvOf(env, src), Texts(b.scan)) == Y.Seen(env, Texts(b.scan));
  }

  /** The direct computation looks at the disk only through the list it is given. */
  lemma {:induction false} SameDirect(env: Y.Env, other: Y.Env, input: seq<(string, string)>, seen: set<string>,
      files: seq<Y.DiskFile>)
    requires other == env.(disk := other.disk)
    ensures Y.DocsDirect(other, input) == Y.DocsDirect(env, input)
    ensures Y.DiskDirect(other, seen, files) == Y.DiskDirect(env, seen, files)
    decreases |input| + |files|
  {
    if input != [] {
      SameDirect(env, other, input[..|input| - 1], seen, files);
    }
    if files != [] {
      SameDirect(env, other, input, seen, files[..|files| - 1]);
    }
  }

  // ---------------------------------------------------------------- what every step keeps

  ghost predicate Sound(env: Y.Env, uris: set<string>) {
    HashInjective(env) && Y.FormatsAgree(env, uris, true)
  }

  ghost predicate Stamped(digest: D.Digest, hist: F.History, job: Job, p: F.Print) {
    p.Printed? && F.PrintedOk(digest, hist, job.addr, job.start, p)
  }

  ghost predicate WorkspaceOk(env: Y.Env, hist: F.History, disks: seq<Disk>, ring: R.Ring<nat, Entry<seq<Y.Flat>>>) {
    forall fp :: fp in ring.entries ==> FlatOk(env, hist, disks, fp, ring.entries[fp].value)
  }

  ghost predicate FilteredOk(env: Y.Env, hist: F.History, disks: seq<Disk>, ring: R.Ring<(nat, nat),
      Entry<seq<Y.Symbol>>>) {
    forall fp, needle :: (fp, env.hash(needle)) in ring.entries ==>
      AnswerOk(env, hist, disks, fp, needle, ring.entries[(fp, env.hash(needle))].value)
  }

  ghost predicate CachesOk(env: Y.Env, uris: set<string>, hist: F.History, disks: seq<Disk>, c: Caches) {
    && Y.SymbolsOk(env, uris, true, c.symbols) && WorkspaceOk(env, hist, disks, c.workspace)
    && FilteredOk(env, hist, disks, c.filtered)
  }

  ghost predicate CallOk(env: Y.Env, uris: set<string>, hist: F.History, disks: seq<Disk>, sh: F.Shared, t: nat,
      c: Call) {
    match c
    case Idle => true
    case Printing(job, p) => F.PrintOk(env.digest, hist, sh, t, job.addr, job.start, p)
    case Wanting(job, p) => Stamped(env.digest, hist, job, p)
    case Building(job, p, b) => Stamped(env.digest, hist, job, p) && BuildOk(env, uris, hist, disks, job.addr, p.end, b)
    case Built(job, p, flat) => Stamped(env.digest, hist, job, p) && FlatOk(env, hist, disks, p.fp, flat)
    case Holding(job, p, flat) => Stamped(env.digest, hist, job, p) && FlatOk(env, hist, disks, p.fp, flat)
    case Done(job, p, result) =>
      Stamped(env.digest, hist, job, p) && AnswerOk(env, hist, disks, p.fp, job.needle, result)
  }

  ghost predicate CallsOk(env: Y.Env, uris: set<string>, s: State) {
    forall t :: 0 <= t < |s.calls| ==> CallOk(env, uris, s.hist, s.disks, s.sh, t, s.calls[t])
  }

  ghost predicate Inv(env: Y.Env, uris: set<string>, s: State) {
    && s.hist != [] && s.disks != [] && HistOver(uris, s.hist) && DisksOver(uris, s.disks)
    && F.SharedOk(env.digest, s.hist, s.sh) && CachesOk(env, uris, s.hist, s.disks, s.caches) && CallsOk(env, uris, s)
  }

  // ---------------------------------------------------------------- documents and disk change

  lemma DocsDoneLater(hist: F.History, w: F.Stores, scan: F.Scan, done: nat)
    requires DocsDone(hist, scan, done)
    ensures DocsDone(hist + [w], scan, done)
  {
  }

  lemma FilesLater(disks: seq<Disk>, d: Disk, fs: FileScan)
    requires FilesOk(disks, fs)
    ensures FilesOk(disks + [d], fs)
  {
    forall i | 0 <= i < |fs.files|
      ensures fs.listedAt <= fs.at[i] < |disks| + 1 && (disks + [d])[fs.at[i]] == disks[fs.at[i]]
    {
    }
  }

  lemma SourceLater(digest: D.Digest, hist: F.History, w: F.Stores, disks: seq<Disk>, d: Disk, src: Source)
    requires SourceOk(digest, hist, disks, src)
    ensures SourceOk(digest, hist + [w], disks, src) && SourceOk(digest, hist, disks + [d], src)
  {
    F.PrintedLater(digest, hist, w, src.job.addr, src.job.start, src.stamp);
    F.ScanLater(hist, w, src.job.addr, src.stamp.end, src.scan);
    DocsDoneLater(hist, w, src.scan, src.files.docsDone);
    FilesLater(disks, d, src.files);
  }

  lemma BuildLater(env: Y.Env, uris: set<string>, hist: F.History, w: F.Stores, disks: seq<Disk>, d: Disk, addr: nat,
      from: nat, b: Build)
    requires BuildOk(env, uris, hist, disks, addr, from, b)
    ensures BuildOk(env, uris, hist + [w], disks, addr, from, b) && BuildOk(env, uris, hist, disks + [d], addr, from, b)
  {
    F.ScanLater(hist, w, addr, from, b.scan);
    if b.files.Some? {
      DocsDoneLater(hist, w, b.scan, b.files.value.docsDone);
      FilesLater(disks, d, b.files.value);
    }
  }

  lemma CachesLater(env: Y.Env, uris: set<string>, hist: F.History, w: F.Stores, disks: seq<Disk>, d: Disk, c: Caches)
    requires CachesOk(env, uris, hist, disks, c)
    ensures CachesOk(env, uris, hist + [w], disks, c) && CachesOk(env, uris, hist, disks + [d], c)
  {
    forall fp | fp in c.workspace.entries
      ensures FlatOk(env, hist + [w], disks, fp, c.workspace.entries[fp].value)
      ensures FlatOk(env, hist, disks + [d], fp, c.workspace.entries[fp].value)
    {
      SourceLater(env.digest, hist, w, disks, d, c.workspace.entries[fp].value.src);
    }
    forall fp, needle | (fp, env.hash(needle)) in c.filtered.entries
      ensures var e := c.filtered.entries[(fp, env.hash(needle))].value;
        AnswerOk(env, hist + [w], disks, fp, needle, e) && AnswerOk(env, hist, disks + [d], fp, needle, e)
    {
      SourceLater(env.digest, hist, w, disks, d, c.filtered.entries[(fp, env.hash(needle))].value.src);
    }
  }

  lemma CallLater(env: Y.Env, uris: set<string>, hist: F.History, w: F.Stores, disks: seq<Disk>, d: Disk, sh: F.Shared,
      t: nat, c: Call)
    requires CallOk(env, uris, hist, disks, sh, t, c)
    ensures CallOk(env, uris, hist + [w], disks, sh, t, c) && CallOk(env, uris, hist, disks + [d], sh, t, c)
  {
    if c.Printing? {
      F.PrintLater(env.digest, hist, w, sh, t, c.job.addr, c.job.start, c.p);
    } else if !c.Idle? {
      F.PrintedLater(env.digest, hist, w, c.job.addr, c.job.start, c.p);
    }
    match c
    case Building(job, p, b) => BuildLater(env, uris, hist, w, disks, d, job.addr, p.end, b);
    case Built(_, _, flat) => SourceLater(env.digest, hist, w, disks, d, flat.src);
    case Holding(_, _, flat) => SourceLater(env.digest, hist, w, disks, d, flat.src);
    case Done(_, _, result) => SourceLater(env.digest, hist, w, disks, d, result.src);
    case _ =>
  }

  lemma EditInv(env: Y.Env, uris: set<string>, s: State, w: F.Stores)
    requires Inv(env, uris, s) && forall a :: F.DocsOf(w, a).Keys <= uris
    ensures Inv(env, uris, s.(hist := s.hist + [w]))
  {
    F.SharedLater(env.digest, s.hist, w, s.sh);
    CachesLater(env, uris, s.hist, w, s.disks, map[], s.caches);
    forall t | 0 <= t < |s.calls| ensures CallOk(env, uris, s.hist + [w], s.disks, s.sh, t, s.calls[t]) {
      CallLater(env, uris, s.hist, w, s.disks, map[], s.sh, t, s.calls[t]);
    }
  }

  lemma DiskInv(env: Y.Env, uris: set<string>, s: State, d: Disk)
    requires Inv(env, uris, s) && d.Keys <= uris
    ensures Inv(env, uris, s.(disks := s.disks + [d]))
  {
    CachesLater(env, uris, s.hist, map[], s.disks, d, s.caches);
    forall t | 0 <= t < |s.calls| ensures CallOk(env, uris, s.hist, s.disks + [d], s.sh, t, s.calls[t]) {
      CallLater(env, uris, s.hist, map[], s.disks, d, s.sh, t, s.calls[t]);
    }
  }

  lemma EditedOver(uris: set<string>, w: F.Stores, e: D.Event)
    requires forall a :: F.DocsOf(w, a).Keys <= uris
    requires e.Open? || e.Update? ==> e.uri in uris
    ensures forall a :: F.DocsOf(F.Edited(w, e), a).Keys <= uris
  {
    forall a ensures F.DocsOf(F.Edited(w, e), a).Keys <= uris {
      assert F.DocsOf(w, a).Keys <= uris;
    }
  }

  // ---------------------------------------------------------------- steps of a search

  /** The entries after an insertion are old ones and, if its key was new, the inserted one. */
  lemma ThroughEntries<K, V>(n: nat, ring: R.Ring<K, V>, key: K, value: V, k: K)
    requires k in Y.Through(n, ring, key, value).0.entries
    ensures var e := Y.Through(n, ring, key, value).0.entries[k].value;
      (k in ring.entries && e == ring.entries[k].value) || (k == key && e == value)
  {
  }

  lemma WorkspaceThrough(env: Y.Env, hist: F.History, disks: seq<Disk>, ring: R.Ring<nat, Entry<seq<Y.Flat>>>, fp: nat,
      flat: Entry<seq<Y.Flat>>)
    requires WorkspaceOk(env, hist, disks, ring) && FlatOk(env, hist, disks, fp, flat)
    ensures var r := Y.Through(Y.WORKSPACE_SLOTS, ring, fp, flat);
      WorkspaceOk(env, hist, disks, r.0) && FlatOk(env, hist, disks, fp, r.1)
  {
    var r := Y.Through(Y.WORKSPACE_SLOTS, ring, fp, flat);
    forall k | k in r.0.entries ensures FlatOk(env, hist, disks, k, r.0.entries[k].value) {
      ThroughEntries(Y.WORKSPACE_SLOTS, ring, fp, flat, k);
    }
  }

  lemma FilteredThrough(env: Y.Env, hist: F.History, disks: seq<Disk>, ring: R.Ring<(nat, nat), Entry<seq<Y.Symbol>>>,
      fp: nat, needle: string, own: Entry<seq<Y.Symbol>>)
    requires HashInjective(env) && FilteredOk(env, hist, disks, ring) && AnswerOk(env, hist, disks, fp, needle, own)
    ensures var r := Y.Through(Y.FILTERED_SLOTS, ring, (fp, env.hash(needle)), own);
      FilteredOk(env, hist, disks, r.0) && AnswerOk(env, hist, disks, fp, needle, r.1)
  {
    var r := Y.Through(Y.FILTERED_SLOTS, ring, (fp, env.hash(needle)), own);
    forall f, n | (f, env.hash(n)) in r.0.entries
      ensures AnswerOk(env, hist, disks, f, n, r.0.entries[(f, env.hash(n))].value)
    {
      ThroughEntries(Y.FILTERED_SLOTS, ring, (fp, env.hash(needle)), own, (f, env.hash(n)));
    }
  }

  lemma BuildingOk(env: Y.Env, uris: set<string>, s: State, t: nat)
    requires Sound(env, uris) && Inv(env, uris, s) && t < |s.calls| && s.calls[t].Building?
    requires CallOk(env, uris, s.hist, s.disks, s.sh, t, s.calls[t])
    ensures var r := SearchStep(env, s, t);
      Y.SymbolsOk(env, uris, true, r.caches.symbols) && CallOk(env, uris, s.hist, s.disks, s.sh, t, r.calls[t])
  {
    var job, p, b := s.calls[t].job, s.calls[t].p, s.calls[t].b;
    if Finished(b) {
      FinishedOk(env, uris, s.hist, s.disks, job, p, b);
    } else {
      BuildStepOk(env, uris, s.hist, s.disks, s.caches.symbols, job.addr, p.end, b);
    }
  }

  lemma LookupOk(env: Y.Env, uris: set<string>, s: State, t: nat)
    requires Inv(env, uris, s) && t < |s.calls|
    requires (s.calls[t].Wanting? || (s.calls[t].Printing? && s.calls[t].p.Printed?))
    requires CallOk(env, uris, s.hist, s.disks, s.sh, t, s.calls[t])
    ensures var r := SearchStep(env, s, t);
      r.caches == s.caches && CallOk(env, uris, s.hist, s.disks, s.sh, t, r.calls[t])
  {
    F.ListedOk(s.hist, s.calls[t].job.addr, s.calls[t].p.end);
  }

  lemma InsertOk(env: Y.Env, uris: set<string>, s: State, t: nat)
    requires HashInjective(env) && Inv(env, uris, s) && t < |s.calls| && (s.calls[t].Built? || s.calls[t].Holding?)
    requires CallOk(env, uris, s.hist, s.disks, s.sh, t, s.calls[t])
    ensures var r := SearchStep(env, s, t);
      && r.caches.symbols == s.caches.symbols && WorkspaceOk(env, s.hist, s.disks, r.caches.workspace)
      && FilteredOk(env, s.hist, s.disks, r.caches.filtered) && CallOk(env, uris, s.hist, s.disks, s.sh, t, r.calls[t])
  {
    var job, p, flat := s.calls[t].job, s.calls[t].p, s.calls[t].flat;
    if s.calls[t].Built? {
      WorkspaceThrough(env, s.hist, s.disks, s.caches.workspace, p.fp, flat);
    } else {
      FilteredThrough(env, s.hist, s.disks, s.caches.filtered, p.fp, job.needle,
        Entry(Y.Filtered(flat.value, job.needle), flat.src));
    }
  }

  /** A step of call `t` leaves the caches and that call in order. */
  lemma OwnStepOk(env: Y.Env, uris: set<string>, s: State, t: nat)
    requires Sound(env, uris) && Inv(env, uris, s) && t < |s.calls| && !(s.calls[t].Printing? && !s.calls[t].p.Printed?)
    ensures var r := SearchStep(env, s, t);
      CachesOk(env, uris, s.hist, s.disks, r.caches) && CallOk(env, uris, s.hist, s.disks, s.sh, t, r.calls[t])
  {
    assert CallOk(env, uris, s.hist, s.disks, s.sh, t, s.calls[t]);
    match s.calls[t]
    case Printing(_, _) => LookupOk(env, uris, s, t);
    case Wanting(_, _) => LookupOk(env, uris, s, t);
    case Building(_, _, _) => BuildingOk(env, uris, s, t);
    case Built(_, _, _) => InsertOk(env, uris, s, t);
    case Holding(_, _, _) => InsertOk(env, uris, s, t);
    case _ =>
  }

  lemma GoInv(env: Y.Env, uris: set<string>, s: State, t: nat)
    requires Sound(env, uris) && Inv(env, uris, s) && t < |s.calls|
    ensures Inv(env, uris, SearchStep(env, s, t))
  {
    if s.calls[t].Printing? && !s.calls[t].p.Printed? {
      PrintInv(env, uris, s, t);
    } else {
      OwnStepOk(env, uris, s, t);
      OwnStepFrame(env, s, t);
      var r := SearchStep(env, s, t);
      MovedInv(env, uris, s, t, r.caches, r.calls[t]);
    }
  }

  lemma OwnStepFrame(env: Y.Env, s: State, t: nat)
    requires s.hist != [] && s.disks != [] && t < |s.calls| && !(s.calls[t].Printing? && !s.calls[t].p.Printed?)
    ensures var r := SearchStep(env, s, t);
      |r.calls| == |s.calls| && r == s.(caches := r.caches, calls := s.calls[t := r.calls[t]])
  {
    assert s.calls[t := s.calls[t]] == s.calls;
  }

  lemma MovedInv(env: Y.Env, uris: set<string>, s: State, t: nat, caches: Caches, c: Call)
    requires Inv(env, uris, s) && t < |s.calls| && CachesOk(env, uris, s.hist, s.disks, caches)
    requires CallOk(env, uris, s.hist, s.disks, s.sh, t, c)
    ensures Inv(env, uris, s.(caches := caches, calls := s.calls[t := c]))
  {
    var calls := s.calls[t := c];
    forall i | 0 <= i < |calls| ensures CallOk(env, uris, s.hist, s.disks, s.sh, i, calls[i]) {
      if i != t {
        assert calls[i] == s.calls[i];
      }
    }
  }

  lemma PrintInv(env: Y.Env, uris: set<string>, s: State, t: nat)
    requires Inv(env, uris, s) && t < |s.calls| && s.calls[t].Printing? && !s.calls[t].p.Printed?
    ensures Inv(env, uris, SearchStep(env, s, t))
  {
    var job, p := s.calls[t].job, s.calls[t].p;
    assert CallOk(env, uris, s.hist, s.disks, s.sh, t, s.calls[t]);
    F.PrintStepOk(env.digest, s.hist, s.sh, t, job.addr, job.start, p);
    var r := F.PrintStep(env.digest, s.hist, s.sh, job.addr, p);
    forall i | 0 <= i < |s.calls| && i != t ensures CallOk(env, uris, s.hist, s.disks, r.0, i, s.calls[i]) {
      var c := s.calls[i];
      assert CallOk(env, uris, s.hist, s.disks, s.sh, i, c);
      if c.Printing? {
        F.OthersKeepCheck(env.digest, s.hist, s.sh, i, c.job.addr, c.job.start, c.p, t, job.addr, job.start, p);
      }
    }
  }

  lemma StartInv(env: Y.Env, uris: set<string>, s: State, t: nat, addr: nat, needle: string)
    requires Inv(env, uris, s) && t < |s.calls| && F.PrintStart(s.hist, s.sh, t, addr).Some?
    ensures var r := F.PrintStart(s.hist, s.sh, t, addr).value;
      Inv(env, uris, s.(sh := r.0, calls := s.calls[t := Printing(Job(addr, needle, F.Now(s.hist)), r.1)]))
  {
    F.StartOk(env.digest, s.hist, s.sh, t, addr);
    var r := F.PrintStart(s.hist, s.sh, t, addr).value;
    forall i | 0 <= i < |s.calls| && i != t ensures CallOk(env, uris, s.hist, s.disks, r.0, i, s.calls[i]) {
      var c := s.calls[i];
      assert CallOk(env, uris, s.hist, s.disks, s.sh, i, c);
      if c.Printing? {
        F.OthersKeepStart(env.digest, s.hist, s.sh, i, c.job.addr, c.job.start, c.p, t, addr);
      }
    }
  }

  // ---------------------------------------------------------------- every interleaving

  /** Documents are opened under, and files appear at, one of the uris. */
  predicate Over(uris: set<string>, e: Event) {
    && (e.Edit? && (e.edit.Open? || e.edit.Update?) ==> e.edit.uri in uris)
    && (e.SetDisk? ==> e.disk.Keys <= uris)
  }

  predicate AllOver(uris: set<string>, events: seq<Event>) {
    forall i :: 0 <= i < |events| ==> Over(uris, events[i])
  }

  ghost predicate Initial(s: State) {
    && s.hist == [map[]] && s.disks == [map[]] && s.sh == F.Shared(None, None)
    && s.caches == Caches(R.Ring(map[], []), R.Ring(map[], []), R.Ring(map[], []))
    && forall t :: 0 <= t < |s.calls| ==> s.calls[t].Idle?
  }

  lemma StepInv(env: Y.Env, uris: set<string>, s: State, e: Event)
    requires Sound(env, uris) && Inv(env, uris, s) && Over(uris, e)
    ensures Inv(env, uris, Step(env, s, e))
  {
    match e
    case Edit(edit) =>
      EditedOver(uris, s.hist[|s.hist| - 1], edit);
      EditInv(env, uris, s, F.Edited(s.hist[|s.hist| - 1], edit));
    case SetDisk(disk) => DiskInv(env, uris, s, disk);
    case Start(t, addr, needle) =>
      if t < |s.calls| && F.PrintStart(s.hist, s.sh, t, addr).Some? {
        StartInv(env, uris, s, t, addr, needle);
      }
    case Go(t) =>
      if t < |s.calls| {
        GoInv(env, uris, s, t);
      }
  }

  lemma {:induction false} RunInv(env: Y.Env, uris: set<string>, s: State, events: seq<Event>)
    requires Sound(env, uris) && Inv(env, uris, s) && AllOver(uris, events)
    ensures Inv(env, uris, Run(env, s, events))
    decreases |events|
  {
    if events != [] {
      assert Over(uris, events[0]);
      StepInv(env, uris, s, events[0]);
      RunInv(env, uris, Step(env, s, events[0]), events[1..]);
    }
  }

  /** In every interleaving, an answer is the fresh list for what one build read: a build of a call that
      had got the same fingerprint, reading documents and files each as it was at an instant after. */
  lemma AnswersOfOneBuild(env: Y.Env, uris: set<string>, s: State, events: seq<Event>, t: nat)
    requires Sound(env, uris) && Initial(s) && AllOver(uris, events) && t < |s.calls|
    ensures
      var end := Run(env, s, events);
      var c := end.calls[t];
      c.Done? ==>
        && Stamped(env.digest, end.hist, c.job, c.p)
        && AnswerOk(env, end.hist, end.disks, c.p.fp, c.job.needle, c.result)
        && F.AllReal(end.hist, c.result.src.job.addr, c.result.src.stamp.end, F.ScanReads(c.result.src.scan))
  {
    RunInv(env, uris, s, events);
    var end := Run(env, s, events);
    assert CallOk(env, uris, end.hist, end.disks, end.sh, t, end.calls[t]);
    if end.calls[t].Done? {
      var src := end.calls[t].result.src;
      F.ScanFacts(end.hist, src.job.addr, src.stamp.end, src.scan);
    }
  }

  // ---------------------------------------------------------------- exactly the undisturbed builds

  ghost predicate DigestInjective(env: Y.Env) {
    forall x, y :: env.digest(x) == env.digest(y) ==> x == y
  }

  /** A fingerprint was taken of these documents: they did not change during its call, or its slot was
      accepted, versions grow, and they were open when the call began. */
  ghost predicate TakenOf(textOf: D.TextOf, hist: F.History, job: Job, p: F.Print, docs: D.Docs)
    requires p.Printed?
  {
    || (F.Conforming(textOf, hist, job.addr) && F.Steady(hist, job.addr, job.start, p.end, docs))
    || (p.fast && F.VersionsGrow(hist, job.addr) && job.start < |hist| && docs == F.DocsOf(hist[job.start], job.addr))
  }

  lemma TakenExact(env: Y.Env, textOf: D.TextOf, hist: F.History, job: Job, p: F.Print, docs: D.Docs)
    requires Stamped(env.digest, hist, job, p) && TakenOf(textOf, hist, job, p, docs)
    ensures p.fp == env.digest(D.InputOfListing(docs))
  {
    assert p.fp == D.FullFingerprint(env.digest, docs);
  }

  /** Nothing changed from the end of a call's fingerprint until its build had read every document. */
  ghost predicate NoEditBefore(hist: F.History, src: Source, docs: D.Docs)
    requires src.stamp.Printed?
  {
    F.Steady(hist, src.job.addr, src.stamp.end, src.files.docsDone, docs)
  }

  /** The answer to a call, as the fresh list for these documents and the files that were read has it. */
  ghost predicate FreshFor(env: Y.Env, c: Call, docs: D.Docs)
    requires c.Done?
  {
    c.result.value == Y.Direct(EnvOf(env, c.result.src), D.InputOfListing(docs), c.job.needle)
  }

  /** The build read the texts its own call had fingerprinted. */
  ghost predicate ReadWhatItStamped(src: Source, stamped: D.Docs) {
    Texts(src.scan) == D.InputOfListing(stamped)
  }

  /** In every interleaving: let a call's fingerprint be taken of `docs`, and that of the call whose build
      it got its answer from of `stamped`. The answer is the fresh one if no document changed between that
      fingerprint and its build; and where different texts show different symbols, it is fresh exactly
      if the build read the texts that had been fingerprinted. That symbols tell the two inputs apart is a
      hypothesis on the texts read and fingerprinted: a document without symbols, or an edit that leaves
      them as they are, shows nothing. */
  lemma FreshExactly(env: Y.Env, uris: set<string>, s: State, events: seq<Event>, t: nat, textOf: D.TextOf,
      docs: D.Docs, stamped: D.Docs)
    requires Sound(env, uris) && DigestInjective(env) && Initial(s) && AllOver(uris, events) && t < |s.calls|
    ensures
      var end := Run(env, s, events);
      var c := end.calls[t];
      c.Done? ==>
        var src := c.result.src;
        src.stamp.Printed? && c.p.Printed? &&
        (TakenOf(textOf, end.hist, c.job, c.p, docs) && TakenOf(textOf, end.hist, src.job, src.stamp, stamped) ==>
          && (NoEditBefore(end.hist, src, stamped) ==> FreshFor(env, c, docs))
          && (Telling(EnvOf(env, src), c.job.needle, Texts(src.scan), D.InputOfListing(docs)) ==>
                (FreshFor(env, c, docs) <==> ReadWhatItStamped(src, stamped))))
  {
    AnswersOfOneBuild(env, uris, s, events, t);
    var end := Run(env, s, events);
    var c := end.calls[t];
    if c.Done? && TakenOf(textOf, end.hist, c.job, c.p, docs)
      && TakenOf(textOf, end.hist, c.result.src.job, c.result.src.stamp, stamped) {
      SameDocuments(env, textOf, end.hist, end.disks, c, docs, stamped);
      if NoEditBefore(end.hist, c.result.src, stamped) {
        BuildOfStamped(env.digest, end.hist, end.disks, c.result.src, stamped);
      }
    }
  }

  /** Different texts show different symbols to this search. */
  ghost predicate Telling(env: Y.Env, needle: string, x: seq<(string, string)>, y: seq<(string, string)>) {
    Y.Direct(env, x, needle) == Y.Direct(env, y, needle) ==> x == y
  }

  lemma SameDocuments(env: Y.Env, textOf: D.TextOf, hist: F.History, disks: seq<Disk>, c: Call, docs: D.Docs,
      stamped: D.Docs)
    requires DigestInjective(env) && c.Done? && Stamped(env.digest, hist, c.job, c.p)
    requires AnswerOk(env, hist, disks, c.p.fp, c.job.needle, c.result)
    requires TakenOf(textOf, hist, c.job, c.p, docs)
    requires TakenOf(textOf, hist, c.result.src.job, c.result.src.stamp, stamped)
    ensures D.InputOfListing(docs) == D.InputOfListing(stamped)
  {
    TakenExact(env, textOf, hist, c.job, c.p, docs);
    TakenExact(env, textOf, hist, c.result.src.job, c.result.src.stamp, stamped);
  }

  lemma BuildOfStamped(digest: D.Digest, hist: F.History, disks: seq<Disk>, src: Source, stamped: D.Docs)
    requires SourceOk(digest, hist, disks, src) && NoEditBefore(hist, src, stamped)
    ensures ReadWhatItStamped(src, stamped)
  {
    F.SteadyScan(hist, src.job.addr, src.stamp.end, src.files.docsDone, src.scan, stamped);
  }

  /** The files of a disk, as a search lists them. */
  ghost function FilesOf(disk: Disk): seq<Y.DiskFile> {
    var names := O.Listing(disk.Keys);
    seq(|names|, i requires 0 <= i < |names| =>
      Y.DiskFile(names[i], if names[i] in disk then Some(disk[names[i]]) else None))
  }

  ghost predicate DiskSteady(disks: seq<Disk>, fs: FileScan, disk: Disk) {
    && fs.listedAt < |disks| && disks[fs.listedAt] == disk
    && forall i :: 0 <= i < |fs.at| ==> fs.at[i] < |disks| && disks[fs.at[i]] == disk
  }

  /** The files behind an answer are those of the disk if it did not change while they were read. */
  lemma FilesOfOneDisk(env: Y.Env, uris: set<string>, s: State, events: seq<Event>, t: nat, disk: Disk)
    requires Sound(env, uris) && Initial(s) && AllOver(uris, events) && t < |s.calls|
    ensures
      var end := Run(env, s, events);
      var c := end.calls[t];
      c.Done? && DiskSteady(end.disks, c.result.src.files, disk) ==>
        EnvOf(env, c.result.src) == env.(disk := FilesOf(disk))
  {
    AnswersOfOneBuild(env, uris, s, events, t);
    var end := Run(env, s, events);
    var c := end.calls[t];
    if c.Done? && DiskSteady(end.disks, c.result.src.files, disk) {
      var fs, files := c.result.src.files, FilesOf(disk);
      assert |files| == |fs.files|;
      forall i | 0 <= i < |files| ensures fs.files[i] == files[i] {
        assert end.disks[fs.at[i]] == disk;
      }
    }
  }

  // ---------------------------------------------------------------- an edit between fingerprint and build

  lemma {:induction false} RunConcat(env: Y.Env, s: State, xs: seq<Event>, ys: seq<Event>)
    requires s.hist != [] && s.disks != []
    ensures Run(env, s, xs + ys) == Run(env, Run(env, s, xs), ys)
    decreases |xs|
  {
    if xs == [] {
      assert xs + ys == ys;
    } else {
      assert (xs + ys)[1..] == xs[1..] + ys;
      RunConcat(env, Step(env, s, xs[0]), xs[1..], ys);
    }
  }

  /** The events lead from one state to the other. */
  ghost predicate Leads(env: Y.Env, s: State, events: seq<Event>, r: State) {
    s.hist != [] && s.disks != [] && r == Run(env, s, events)
  }

  lemma Then(env: Y.Env, s: State, xs: seq<Event>, m: State, ys: seq<Event>, r: State)
    requires Leads(env, s, xs, m) && Leads(env, m, ys, r)
    ensures Leads(env, s, xs + ys, r)
  {
    RunConcat(env, s, xs, ys);
  }

  function Gos(n: nat): seq<Event> {
    seq(n, i => Go(0))
  }

  ghost predicate Only(s: State, c: Call) {
    s.hist != [] && s.disks != [] && s.calls == [c]
  }

  /** The single document `u` of store 0. */
  ghost predicate Shows(hist: F.History, u: string, doc: D.Doc) {
    hist != [] && F.Current(hist, 0) == map[u := doc]
  }

  lemma OneListed(u: string, doc: D.Doc)
    ensures O.Listing(map[u := doc].Keys) == [u]
  {
    assert O.Sorted([u]) && O.Members([u]) == {u} == map[u := doc].Keys;
    O.SortedUnique([u], O.Listing(map[u := doc].Keys));
  }

  function OneVisit(u: string, listedAt: nat, doc: D.Doc, at: nat): F.Scan {
    F.Scan([u], listedAt, [F.Visit(Some(doc), at)])
  }

  lemma OneRead(u: string, listedAt: nat, doc: D.Doc, at: nat)
    ensures F.ScanReads(OneVisit(u, listedAt, doc, at)) == [F.Read(u, doc, at)]
    ensures Texts(OneVisit(u, listedAt, doc, at)) == [(u, doc.text)]
  {
    var visits := [F.Visit(Some(doc), at)];
    assert visits[..0] == [] && F.Reads([u], []) == [];
  }

  lemma GoOnce(env: Y.Env, s: State, m: State, n: nat, r: State)
    requires s.hist != [] && s.disks != [] && n > 0 && m == Step(env, s, Go(0)) && Leads(env, m, Gos(n - 1), r)
    ensures Leads(env, s, Gos(n), r)
  {
    assert Gos(n)[1..] == Gos(n - 1);
  }

  lemma GoNot(env: Y.Env, s: State)
    requires s.hist != [] && s.disks != []
    ensures Leads(env, s, Gos(0), s)
  {
  }

  /** The slot a full pass over one document leaves, and the value it returns. */
  function Stamp(env: Y.Env, u: string, doc: D.Doc, at: nat): (F.Shared, F.Print) {
    var fp, found := env.digest([(u, doc.text)]), [F.Read(u, doc, at)];
    (F.Shared(Some(F.Traced(D.Slot(0, 1, F.EntriesOf(found), fp), found)), None), F.Printed(fp, false, at, found))
  }

  function Stamping(env: Y.Env, s: State, job: Job, u: string, doc: D.Doc, at: nat): State {
    var st := Stamp(env, u, doc, at);
    s.(sh := st.0, calls := [Printing(job, st.1)])
  }

  /** A full pass over one document. */
  lemma PrintPhase(env: Y.Env, s: State, job: Job, u: string, doc: D.Doc)
    requires Only(s, Printing(job, F.Missing)) && job.addr == 0 && s.sh.lock.None? && Shows(s.hist, u, doc)
    ensures Leads(env, s, Gos(3), Stamping(env, s, job, u, doc, F.Now(s.hist)))
  {
    var n := F.Now(s.hist);
    OneListed(u, doc);
    OneRead(u, n, doc, n);
    var s1 := s.(calls := [Printing(job, F.Hashing(F.Scan([u], n, [])))]);
    var s2 := s.(calls := [Printing(job, F.Hashing(OneVisit(u, n, doc, n)))]);
    var s3 := Stamping(env, s, job, u, doc, n);
    assert F.Visited(s.hist, 0, F.Scan([u], n, [])) == OneVisit(u, n, doc, n);
    GoNot(env, s3);
    GoOnce(env, s2, s3, 1, s3);
    GoOnce(env, s1, s2, 2, s3);
    GoOnce(env, s, s1, 3, s3);
  }

  function Listing(s: State, job: Job, p: F.Print, u: string): State
    requires s.hist != []
  {
    s.(calls := [Building(job, p, Build(F.Scan([u], F.Now(s.hist), []), None, None, []))])
  }

  lemma MissPhase(env: Y.Env, s: State, job: Job, p: F.Print, u: string, doc: D.Doc)
    requires Only(s, Printing(job, p)) && job.addr == 0 && p.Printed? && Shows(s.hist, u, doc)
    requires s.caches.filtered.entries == map[] && s.caches.workspace.entries == map[]
    ensures Leads(env, s, Gos(2), Listing(s, job, p, u))
  {
    var s1 := s.(calls := [Wanting(job, p)]);
    OneListed(u, doc);
    GoNot(env, Listing(s, job, p, u));
    GoOnce(env, s1, Listing(s, job, p, u), 1, Listing(s, job, p, u));
    GoOnce(env, s, s1, 2, Listing(s, job, p, u));
  }

  /** What the build of the witness has put together once it is done. */
  lemma OneDocument(env: Y.Env, u: string, text: string, raws: seq<Y.Raw>)
    requires env.extract(text, env.formatOf(u)) == Some(raws)
    ensures O.SortStable(Y.FlatBefore, Y.Tag(u, raws)) == Y.FlatDirect(env.(disk := []), [(u, text)])
  {
    var none := env.(disk := []);
    DocsDirectSnoc(none, [], u, text);
    assert [] + [(u, text)] == [(u, text)];
    assert Y.DocsDirect(none, [(u, text)]) + [] == Y.Tag(u, raws);
  }

  /** `r` is `s` but for its only call and its symbol cache. */
  ghost predicate HasRead(s: State, call: Call, r: State) {
    r == s.(caches := s.caches.(symbols := r.caches.symbols), calls := [call])
  }

  lemma ReadPhase(env: Y.Env, s: State, job: Job, p: F.Print, u: string, listedAt: nat, doc: D.Doc, raws: seq<Y.Raw>)
    returns (r: State)
    requires Only(s, Building(job, p, Build(F.Scan([u], listedAt, []), None, None, []))) && job.addr == 0
    requires Shows(s.hist, u, doc)
    requires env.extract(doc.text, env.formatOf(u)) == Some(raws) && s.caches.symbols == R.Ring(map[], [])
    ensures Leads(env, s, Gos(2), r)
    ensures HasRead(s, Building(job, p,
      Build(OneVisit(u, listedAt, doc, F.Now(s.hist)), None, None, Y.Tag(u, raws))), r)
  {
    var scan := OneVisit(u, listedAt, doc, F.Now(s.hist));
    assert F.Visited(s.hist, 0, F.Scan([u], listedAt, [])) == scan;
    var s1 := s.(calls := [Building(job, p, Build(scan, None, Some(Pending(u, doc.text, raws)), []))]);
    assert [] + Y.Tag(u, raws) == Y.Tag(u, raws);
    r := Step(env, s1, Go(0));
    GoNot(env, r);
    GoOnce(env, s1, r, 1, r);
    GoOnce(env, s, s1, 2, r);
  }

  lemma FinishPhase(env: Y.Env, s: State, job: Job, p: F.Print, scan: F.Scan, out: seq<Y.Flat>) returns (r: State)
    requires Only(s, Building(job, p, Build(scan, None, None, out))) && F.Complete(scan)
    requires s.disks[|s.disks| - 1] == map[]
    ensures Leads(env, s, Gos(2), r)
    ensures
      var fs := FileScan([], |s.disks| - 1, F.Now(s.hist), [], []);
      r == s.(calls := [Built(job, p, Entry(O.SortStable(Y.FlatBefore, out), Source(job, p, scan, fs)))])
  {
    var none: Disk := map[];
    O.SortedUnique([], O.Listing(none.Keys));
    var fs := FileScan([], |s.disks| - 1, F.Now(s.hist), [], []);
    var s1 := s.(calls := [Building(job, p, Build(scan, Some(fs), None, out))]);
    r := Step(env, s1, Go(0));
    GoNot(env, r);
    GoOnce(env, s1, r, 1, r);
    GoOnce(env, s, s1, 2, r);
  }

  /** The answer is cached, and no file went into it. */
  ghost predicate Answers(env: Y.Env, caches: Caches, fp: nat, needle: string, value: seq<Y.Symbol>) {
    && (fp, env.hash(needle)) in caches.filtered.entries
    && var e := caches.filtered.entries[(fp, env.hash(needle))].value;
       e.value == value && e.src.files.files == []
  }

  /** `r` is `s` with the only call done and its answer cached. */
  ghost predicate HasAnswered(env: Y.Env, s: State, job: Job, p: F.Print, value: seq<Y.Symbol>, r: State)
    requires p.Printed?
  {
    && |r.calls| == 1 && r.calls[0].Done? && r == s.(caches := r.caches, calls := r.calls)
    && Answers(env, r.caches, p.fp, job.needle, value)
  }

  lemma InsertPhase(env: Y.Env, s: State, job: Job, p: F.Print, flat: Entry<seq<Y.Flat>>) returns (r: State)
    requires Only(s, Built(job, p, flat)) && p.Printed? && s.caches.filtered.entries == map[]
    requires s.caches.workspace.entries == map[]
    requires flat.src.files.files == []
    ensures Leads(env, s, Gos(2), r) && HasAnswered(env, s, job, p, Y.Filtered(flat.value, job.needle), r)
  {
    var s1 := Step(env, s, Go(0));
    assert s1 == s.(caches := s1.caches, calls := [Holding(job, p, flat)]) && s1.caches.filtered == s.caches.filtered;
    r := Step(env, s1, Go(0));
    GoNot(env, r);
    GoOnce(env, s1, r, 1, r);
    GoOnce(env, s, s1, 2, r);
  }

  const NOTHING_CACHED: Caches := Caches(R.Ring(map[], []), R.Ring(map[], []), R.Ring(map[], []))

  /** The only call is about to build its list from the only document, nothing is cached, and there is no
      file. */
  ghost predicate Lists(s: State, u: string) {
    && s.hist != [] && |s.calls| == 1 && s.calls[0].Building? && s.calls[0].job.addr == 0 && s.calls[0].p.Printed?
    && s.calls[0].b == Build(F.Scan([u], 1, []), None, None, [])
    && s.disks == [map[]] && s.caches == NOTHING_CACHED
  }

  /** `r` is `s` with the only call done, and with an answer over `text` cached for it. */
  ghost predicate Searched(env: Y.Env, s: State, u: string, text: string, r: State)
    requires |s.calls| == 1 && s.calls[0].Building? && s.calls[0].p.Printed?
  {
    var job := s.calls[0].job;
    HasAnswered(env, s, job, s.calls[0].p, Y.Direct(env.(disk := []), [(u, text)], job.needle), r)
  }

  /** The whole build, over a document that shows `doc` by now. */
  lemma BuildPhase(env: Y.Env, s: State, u: string, doc: D.Doc) returns (r: State)
    requires Lists(s, u) && Shows(s.hist, u, doc) && env.extract(doc.text, env.formatOf(u)).Some?
    ensures Leads(env, s, Gos(6), r) && Searched(env, s, u, doc.text, r)
  {
    var job, p, listedAt := s.calls[0].job, s.calls[0].p, 1;
    var raws := env.extract(doc.text, env.formatOf(u)).value;
    var s1 := ReadPhase(env, s, job, p, u, listedAt, doc, raws);
    var s2 := FinishPhase(env, s1, job, p, OneVisit(u, listedAt, doc, F.Now(s.hist)), Y.Tag(u, raws));
    OneDocument(env, u, doc.text, raws);
    r := InsertPhase(env, s2, job, p, s2.calls[0].flat);
    Then(env, s1, Gos(2), s2, Gos(2), r);
    Then(env, s, Gos(2), s1, Gos(2) + Gos(2), r);
    assert Gos(6) == Gos(2) + (Gos(2) + Gos(2));
  }

  /** A document is opened and a search gets as far as listing the documents for its build. */
  function SearchBegins(u: string, text: string, needle: string): seq<Event> {
    [Edit(D.Open(0, u, 1, text)), Start(0, 0, needle)] + (Gos(3) + Gos(2))
  }

  /** The document changes, and the build reads it. */
  function ChangeAndBuild(u: string, text: string): seq<Event> {
    [Edit(D.Update(0, u, 2, text))] + Gos(6)
  }

  /** The change is undone, and another search runs from start to end. */
  function UndoAndSearch(u: string, text: string, needle: string): seq<Event> {
    [Edit(D.Update(0, u, 3, text)), Start(0, 0, needle)] + (Gos(1) + (Gos(3) + Gos(1)))
  }

  function OneStore(u: string, doc: D.Doc): F.Stores {
    map[0 := map[u := doc]]
  }

  lemma LeadsTwo(env: Y.Env, s: State, e: Event, f: Event)
    requires s.hist != [] && s.disks != []
    ensures Leads(env, s, [e], Step(env, s, e)) && Leads(env, s, [e, f], Step(env, Step(env, s, e), f))
  {
    assert [e][1..] == [] && [e, f][1..] == [f] && [f][1..] == [];
    assert Run(env, Step(env, s, e), [f]) == Run(env, Step(env, Step(env, s, e), f), []);
  }

  /** Nothing has happened, and there is one thread. */
  ghost predicate Alone(s: State) {
    Initial(s) && s.calls == [Idle]
  }

  lemma OpenPhase(env: Y.Env, s: State, u: string, text: string, needle: string) returns (r: State)
    requires Alone(s)
    ensures Leads(env, s, [Edit(D.Open(0, u, 1, text)), Start(0, 0, needle)], r)
    ensures r == s.(hist := [map[], OneStore(u, D.Doc(1, text))], calls := [Printing(Job(0, needle, 1), F.Missing)])
  {
    var e, f := Edit(D.Open(0, u, 1, text)), Start(0, 0, needle);
    LeadsTwo(env, s, e, f);
    var s1 := Step(env, s, e);
    assert s1 == s.(hist := [map[], OneStore(u, D.Doc(1, text))]);
    r := Step(env, s1, f);
  }

  lemma StampPhase(env: Y.Env, s: State, job: Job, u: string, doc: D.Doc) returns (r: State)
    requires Only(s, Printing(job, F.Missing)) && job.addr == 0 && s.sh.lock.None? && Shows(s.hist, u, doc)
    requires s.caches == NOTHING_CACHED
    ensures Leads(env, s, Gos(3) + Gos(2), r)
    ensures
      var st := Stamp(env, u, doc, F.Now(s.hist));
      r == s.(sh := st.0, calls := [Building(job, st.1, Build(F.Scan([u], F.Now(s.hist), []), None, None, []))])
  {
    PrintPhase(env, s, job, u, doc);
    var s1, p := Stamping(env, s, job, u, doc, F.Now(s.hist)), Stamp(env, u, doc, F.Now(s.hist)).1;
    MissPhase(env, s1, job, p, u, doc);
    r := Listing(s1, job, p, u);
    Then(env, s, Gos(3), s1, Gos(2), r);
  }

  lemma BeginsAt(env: Y.Env, s: State, u: string, text: string, needle: string) returns (r: State)
    requires Alone(s)
    ensures Leads(env, s, SearchBegins(u, text, needle), r)
    ensures Begun(env, r, u, text, needle)
  {
    var s1 := OpenPhase(env, s, u, text, needle);
    r := StampPhase(env, s1, Job(0, needle, 1), u, D.Doc(1, text));
    Then(env, s, [Edit(D.Open(0, u, 1, text)), Start(0, 0, needle)], s1, Gos(3) + Gos(2), r);
  }

  lemma UpdatePhase(env: Y.Env, s: State, u: string, was: D.Doc, doc: D.Doc)
    requires s.hist != [] && s.disks != [] && s.hist[|s.hist| - 1] == OneStore(u, was)
    ensures Step(env, s, Edit(D.Update(0, u, doc.version, doc.text))) == s.(hist := s.hist + [OneStore(u, doc)])
    ensures Shows(s.hist + [OneStore(u, doc)], u, doc)
  {
    assert map[u := was][u := doc] == map[u := doc];
    assert F.Edited(OneStore(u, was), D.Update(0, u, doc.version, doc.text)) == OneStore(u, doc);
  }

  lemma ChangedAt(env: Y.Env, s: State, u: string, was: D.Doc, text: string) returns (r: State)
    requires Lists(s, u) && s.hist[|s.hist| - 1] == OneStore(u, was) && env.extract(text, env.formatOf(u)).Some?
    ensures Leads(env, s, ChangeAndBuild(u, text), r)
    ensures Searched(env, s.(hist := s.hist + [OneStore(u, D.Doc(2, text))]), u, text, r)
  {
    var e := Edit(D.Update(0, u, 2, text));
    LeadsTwo(env, s, e, e);
    UpdatePhase(env, s, u, was, D.Doc(2, text));
    var s1 := Step(env, s, e);
    r := BuildPhase(env, s1, u, D.Doc(2, text));
    Then(env, s, [e], s1, Gos(6), r);
  }

  /** The version differs from the slot's. */
  lemma RecheckPhase(env: Y.Env, s: State, job: Job, u: string, doc: D.Doc, text: string)
    requires Only(s, Printing(job, F.Checking([]))) && job.addr == 0 && Shows(s.hist, u, doc) && doc.version != 1
    requires s.sh == Stamp(env, u, D.Doc(1, text), 1).0.(lock := Some(0))
    ensures Leads(env, s, Gos(1), s.(sh := s.sh.(lock := None), calls := [Printing(job, F.Missing)]))
  {
    assert s.sh.slot.value.slot.entries == [D.Entry(u, 1, |text|)];
    var r := s.(sh := s.sh.(lock := None), calls := [Printing(job, F.Missing)]);
    GoNot(env, r);
    GoOnce(env, s, r, 1, r);
  }

  lemma HitPhase(env: Y.Env, s: State, job: Job, p: F.Print) returns (r: State)
    requires Only(s, Printing(job, p)) && p.Printed? && (p.fp, env.hash(job.needle)) in s.caches.filtered.entries
    ensures Leads(env, s, Gos(1), r)
    ensures r == s.(calls := [Done(job, p, s.caches.filtered.entries[(p.fp, env.hash(job.needle))].value)])
  {
    r := Step(env, s, Go(0));
    GoNot(env, r);
    GoOnce(env, s, r, 1, r);
  }

  /** The only call is done, and the slot still holds the fingerprint of the document's first text. */
  ghost predicate SlotKept(env: Y.Env, s: State, u: string, was: D.Doc, text: string) {
    && s.hist != [] && s.disks != [] && |s.calls| == 1 && s.calls[0].Done?
    && s.hist[|s.hist| - 1] == OneStore(u, was) && s.sh == Stamp(env, u, D.Doc(1, text), 1).0
  }

  lemma AgainPhase(env: Y.Env, s: State, u: string, was: D.Doc, text: string, needle: string) returns (r: State)
    requires SlotKept(env, s, u, was, text)
    ensures Leads(env, s, [Edit(D.Update(0, u, 3, text)), Start(0, 0, needle)], r)
    ensures r == State(s.hist + [OneStore(u, D.Doc(3, text))], s.disks, s.sh.(lock := Some(0)), s.caches,
      [Printing(Job(0, needle, |s.hist|), F.Checking([]))])
    ensures Shows(r.hist, u, D.Doc(3, text))
  {
    var e, f := Edit(D.Update(0, u, 3, text)), Start(0, 0, needle);
    LeadsTwo(env, s, e, f);
    UpdatePhase(env, s, u, was, D.Doc(3, text));
    var s1 := Step(env, s, e);
    StartPhase(env, s1, u, D.Doc(3, text), text, needle);
    r := Step(env, s1, f);
  }

  /** The slot is for one document of this store, so the entries are compared. */
  lemma StartPhase(env: Y.Env, s: State, u: string, doc: D.Doc, text: string, needle: string)
    requires s.disks != [] && |s.calls| == 1 && s.calls[0].Done? && Shows(s.hist, u, doc)
    requires s.sh == Stamp(env, u, D.Doc(1, text), 1).0
    ensures Step(env, s, Start(0, 0, needle)) ==
      s.(sh := s.sh.(lock := Some(0)), calls := [Printing(Job(0, needle, F.Now(s.hist)), F.Checking([]))])
  {
    assert |map[u := doc]| == 1;
  }

  /** A search over documents whose fingerprint is cached with an answer returns that answer. */
  lemma UndoneAt(env: Y.Env, s: State, u: string, was: D.Doc, text: string, needle: string) returns (r: State)
    requires SlotKept(env, s, u, was, text)
    requires (env.digest([(u, text)]), env.hash(needle)) in s.caches.filtered.entries
    ensures Leads(env, s, UndoAndSearch(u, text, needle), r)
    ensures r.hist == s.hist + [OneStore(u, D.Doc(3, text))]
    ensures r.calls == [Done(Job(0, needle, |s.hist|), Stamp(env, u, D.Doc(3, text), |s.hist|).1,
      s.caches.filtered.entries[(env.digest([(u, text)]), env.hash(needle))].value)]
  {
    var job, doc := Job(0, needle, |s.hist|), D.Doc(3, text);
    var s1 := AgainPhase(env, s, u, was, text, needle);
    RecheckPhase(env, s1, job, u, doc, text);
    var s2 := s1.(sh := s1.sh.(lock := None), calls := [Printing(job, F.Missing)]);
    PrintPhase(env, s2, job, u, doc);
    var s3 := Stamping(env, s2, job, u, doc, |s.hist|);
    r := HitPhase(env, s3, job, Stamp(env, u, doc, |s.hist|).1);
    Then(env, s2, Gos(3), s3, Gos(1), r);
    Then(env, s1, Gos(1), s2, Gos(3) + Gos(1), r);
    Then(env, s, [Edit(D.Update(0, u, 3, text)), Start(0, 0, needle)], s1, Gos(1) + (Gos(3) + Gos(1)), r);
  }

  function Undone(u: string, text: string, other: string, needle: string): seq<Event> {
    SearchBegins(u, text, needle) + (ChangeAndBuild(u, other) + UndoAndSearch(u, text, needle))
  }

  /** One search takes the fingerprint of `text` and builds its list from `other`. The change is undone,
      and a second search, which nothing disturbs, shows the symbols of `other`: it is fresh only if the
      two texts show the same ones. */
  lemma UndoneChangeShows(env: Y.Env, s: State, u: string, text: string, other: string, needle: string)
    requires Alone(s) && env.extract(other, env.formatOf(u)).Some?
    ensures
      var end := Run(env, s, Undone(u, text, other, needle));
      && |end.calls| == 1 && end.calls[0].Done?
      && F.Steady(end.hist, 0, end.calls[0].job.start, |end.hist| - 1, map[u := D.Doc(3, text)])
      && end.calls[0].result.value == Y.Direct(env.(disk := []), [(u, other)], needle)
      && (FreshFor(env, end.calls[0], map[u := D.Doc(3, text)]) <==>
            Y.Direct(env.(disk := []), [(u, text)], needle) == Y.Direct(env.(disk := []), [(u, other)], needle))
  {
    var s1 := BeginsAt(env, s, u, text, needle);
    var s3 := ChangedAndUndone(env, s1, u, text, other, needle);
    Then(env, s, SearchBegins(u, text, needle), s1, ChangeAndBuild(u, other) + UndoAndSearch(u, text, needle), s3);
    OneInput(u, D.Doc(3, text));
  }

  lemma OneInput(u: string, doc: D.Doc)
    ensures D.InputOfListing(map[u := doc]) == [(u, doc.text)]
  {
    OneListed(u, doc);
  }

  /** A search for `needle` has taken the fingerprint of `text` and is about to build. */
  ghost predicate Begun(env: Y.Env, s: State, u: string, text: string, needle: string) {
    && Lists(s, u) && s.hist == [map[], OneStore(u, D.Doc(1, text))]
    && s.calls[0].job == Job(0, needle, 1)
    && (s.sh, s.calls[0].p) == Stamp(env, u, D.Doc(1, text), 1)
  }

  /** The second search has answered from `other`. */
  ghost predicate Ended(env: Y.Env, s: State, u: string, text: string, other: string, needle: string) {
    && |s.calls| == 1 && s.calls[0].Done? && s.calls[0].job == Job(0, needle, 3)
    && |s.hist| == 4 && s.hist[3] == OneStore(u, D.Doc(3, text))
    && s.calls[0].result.src.files.files == []
    && s.calls[0].result.value == Y.Direct(env.(disk := []), [(u, other)], needle)
  }

  lemma ChangedAndUndone(env: Y.Env, s: State, u: string, text: string, other: string, needle: string)
    returns (r: State)
    requires Begun(env, s, u, text, needle) && env.extract(other, env.formatOf(u)).Some?
    ensures Leads(env, s, ChangeAndBuild(u, other) + UndoAndSearch(u, text, needle), r)
    ensures Ended(env, r, u, text, other, needle)
  {
    var s1 := ChangedAt(env, s, u, D.Doc(1, text), other);
    r := UndoneAt(env, s1, u, D.Doc(2, other), text, needle);
    Then(env, s, ChangeAndBuild(u, other), s1, UndoAndSearch(u, text, needle), r);
  }
}
