/** Fingerprint calls in steps, while other threads open, change and close documents. The map of open
    documents answers one key at a time; the slot's lock is held while its entries are compared and
    while it is replaced, not while documents are hashed. */
module FingerprintRaces {
  import opened Common
  import O = Ordering
  import D = DocStore

  type Stores = map<nat, D.Docs>

  /** Every state the stores went through, the last one being now. */
  type History = seq<Stores>

  function DocsOf(w: Stores, addr: nat): D.Docs {
    if addr in w then w[addr] else map[]
  }

  function Now(hist: History): nat
    requires hist != []
  {
    |hist| - 1
  }

  function Current(hist: History, addr: nat): D.Docs
    requires hist != []
  {
    DocsOf(hist[|hist| - 1], addr)
  }

  // ---------------------------------------------------------------- `for_each`, one document at a time

  /** What a uri of the listing showed at instant `at`; the document may have been closed by then. */
  datatype Visit = Visit(doc: Option<D.Doc>, at: nat)

  /** The uris listed at instant `listedAt` and the visits so far. */
  datatype Scan = Scan(uris: seq<string>, listedAt: nat, visits: seq<Visit>)

  datatype Read = Read(uri: string, doc: D.Doc, at: nat)

  ghost function Listed(hist: History, addr: nat): Scan
    requires hist != []
  {
    Scan(O.Listing(Current(hist, addr).Keys), Now(hist), [])
  }

  function Shown(docs: D.Docs, uri: string): Option<D.Doc> {
    if uri in docs then Some(docs[uri]) else None
  }

  predicate Complete(scan: Scan) {
    |scan.visits| >= |scan.uris|
  }

  function Visited(hist: History, addr: nat, scan: Scan): Scan
    requires hist != [] && !Complete(scan)
  {
    scan.(visits := scan.visits + [Visit(Shown(Current(hist, addr), scan.uris[|scan.visits|]), Now(hist))])
  }

  /** The documents that were still there when their turn came. */
  function Reads(uris: seq<string>, visits: seq<Visit>): seq<Read>
    requires |visits| <= |uris|
  {
    if visits == [] then [] else
    var n := |visits| - 1;
    Reads(uris, visits[..n]) + if visits[n].doc.Some? then [Read(uris[n], visits[n].doc.value, visits[n].at)] else []
  }

  function TextsOf(found: seq<Read>): seq<(string, string)> {
    seq(|found|, i requires 0 <= i < |found| => (found[i].uri, found[i].doc.text))
  }

  function EntriesOf(found: seq<Read>): seq<D.Entry> {
    seq(|found|, i requires 0 <= i < |found| => D.Entry(found[i].uri, found[i].doc.version, |found[i].doc.text|))
  }

  function UrisOf(found: seq<Read>): seq<string> {
    seq(|found|, i requires 0 <= i < |found| => found[i].uri)
  }

  ghost predicate ScanOk(hist: History, addr: nat, from: nat, scan: Scan) {
    && from <= scan.listedAt < |hist|
    && scan.uris == O.Listing(DocsOf(hist[scan.listedAt], addr).Keys)
    && |scan.visits| <= |scan.uris|
    && forall i :: 0 <= i < |scan.visits| ==>
         && scan.listedAt <= scan.visits[i].at < |hist|
         && scan.visits[i].doc == Shown(DocsOf(hist[scan.visits[i].at], addr), scan.uris[i])
  }

  /** Each read is what its document was at an instant from `from` on. */
  ghost predicate Real(hist: History, addr: nat, from: nat, r: Read) {
    from <= r.at < |hist| && r.uri in DocsOf(hist[r.at], addr) && DocsOf(hist[r.at], addr)[r.uri] == r.doc
  }

  ghost predicate AllReal(hist: History, addr: nat, from: nat, found: seq<Read>) {
    forall i :: 0 <= i < |found| ==> Real(hist, addr, from, found[i])
  }

  lemma RealSnoc(hist: History, addr: nat, from: nat, before: seq<Read>, r: Read)
    requires AllReal(hist, addr, from, before) && Real(hist, addr, from, r)
    ensures AllReal(hist, addr, from, before + [r])
  {
  }

  lemma {:induction false} ReadsAreReal(hist: History, addr: nat, from: nat, scan: Scan, n: nat)
    requires ScanOk(hist, addr, from, scan) && n <= |scan.visits|
    ensures AllReal(hist, addr, from, Reads(scan.uris, scan.visits[..n]))
  {
    if n > 0 {
      FoundSnoc(scan.uris, scan.visits, n - 1);
      ReadsAreReal(hist, addr, from, scan, n - 1);
      var v := scan.visits[n - 1];
      if v.doc.Some? {
        RealSnoc(hist, addr, from, Reads(scan.uris, scan.visits[..n - 1]), Read(scan.uris[n - 1], v.doc.value, v.at));
      }
    }
  }

  ghost predicate Within(found: seq<Read>, uris: seq<string>) {
    forall r :: r in found ==> r.uri in uris
  }

  lemma WithinSnoc(before: seq<Read>, r: Read, uris: seq<string>, n: nat)
    requires n < |uris| && Within(before, uris[..n]) && r.uri == uris[n]
    ensures Within(before, uris[..n + 1]) && Within(before + [r], uris[..n + 1])
  {
    assert uris[..n + 1] == uris[..n] + [uris[n]];
  }

  /** Reads come from the listing, in its order. */
  lemma {:induction false} ReadsAreSorted(uris: seq<string>, visits: seq<Visit>, n: nat)
    requires O.Sorted(uris) && n <= |visits| <= |uris|
    ensures Within(Reads(uris, visits[..n]), uris[..n]) && O.Sorted(UrisOf(Reads(uris, visits[..n])))
  {
    if n > 0 {
      var m := n - 1;
      FoundSnoc(uris, visits, m);
      ReadsAreSorted(uris, visits, m);
      var before, doc := Reads(uris, visits[..m]), visits[m].doc;
      var r := Read(uris[m], if doc.Some? then doc.value else D.Doc(0, ""), visits[m].at);
      WithinSnoc(before, r, uris, m);
      SortedSnoc(before, r, uris, m);
      assert before + [] == before;
    }
  }

  lemma SortedSnoc(before: seq<Read>, r: Read, uris: seq<string>, n: nat)
    requires O.Sorted(UrisOf(before)) && O.Sorted(uris) && n < |uris| && r.uri == uris[n]
    requires Within(before, uris[..n])
    ensures O.Sorted(UrisOf(before + [r]))
  {
    var all := UrisOf(before + [r]);
    forall i, j | 0 <= i < j < |all| ensures O.Less(all[i], all[j]) {
      if j < |before| {
        assert UrisOf(before)[i] == all[i] && UrisOf(before)[j] == all[j];
      } else {
        assert before[i] in before && before[i].uri in uris[..n];
      }
    }
  }

  /** The documents of a store do not change from one instant to another. */
  ghost predicate Steady(hist: History, addr: nat, i: nat, j: nat, docs: D.Docs) {
    i <= j < |hist| && forall k :: i <= k <= j ==> DocsOf(hist[k], addr) == docs
  }

  lemma FoundSnoc(uris: seq<string>, visits: seq<Visit>, n: nat)
    requires n < |visits| <= |uris|
    ensures Reads(uris, visits[..n + 1]) ==
            Reads(uris, visits[..n]) + if visits[n].doc.Some? then [Read(uris[n], visits[n].doc.value, visits[n].at)]
              else []
  {
    assert visits[..n + 1][..n] == visits[..n];
  }

  lemma InputSnoc(docs: D.Docs, uris: seq<string>, n: nat)
    requires n < |uris| && forall i :: 0 <= i < |uris| ==> uris[i] in docs
    ensures D.InputOf(docs, uris[..n + 1]) == D.InputOf(docs, uris[..n]) + [(uris[n], docs[uris[n]].text)]
  {
  }

  lemma {:induction false} SteadyReads(hist: History, addr: nat, from: nat, to: nat, scan: Scan, docs: D.Docs, n: nat)
    requires ScanOk(hist, addr, from, scan) && Steady(hist, addr, from, to, docs) && n <= |scan.visits|
    requires scan.listedAt <= to && forall i :: 0 <= i < |scan.visits| ==> scan.visits[i].at <= to
    ensures scan.uris == O.Listing(docs.Keys) && forall i :: 0 <= i < |scan.uris| ==> scan.uris[i] in docs
    ensures TextsOf(Reads(scan.uris, scan.visits[..n])) == D.InputOf(docs, scan.uris[..n])
  {
    D.ListingInDocs(docs);
    if n > 0 {
      var m := n - 1;
      SteadyReads(hist, addr, from, to, scan, docs, m);
      FoundSnoc(scan.uris, scan.visits, m);
      InputSnoc(docs, scan.uris, m);
      SteadyVisit(hist, addr, from, to, scan, docs, m);
      TextsSnoc(Reads(scan.uris, scan.visits[..m]), Read(scan.uris[m], docs[scan.uris[m]], scan.visits[m].at));
    }
  }

  lemma SteadyVisit(hist: History, addr: nat, from: nat, to: nat, scan: Scan, docs: D.Docs, m: nat)
    requires ScanOk(hist, addr, from, scan) && Steady(hist, addr, from, to, docs) && m < |scan.visits|
    requires scan.visits[m].at <= to && scan.uris[m] in docs
    ensures scan.visits[m].doc == Some(docs[scan.uris[m]])
  {
  }

  lemma TextsSnoc(before: seq<Read>, r: Read)
    ensures TextsOf(before + [r]) == TextsOf(before) + [(r.uri, r.doc.text)]
  {
  }

  function ScanReads(scan: Scan): seq<Read> {
    if |scan.visits| <= |scan.uris| then Reads(scan.uris, scan.visits) else []
  }

  /** A complete pass reads real documents in sorted order; over steady documents it reads them all. */
  lemma ScanFacts(hist: History, addr: nat, from: nat, scan: Scan)
    requires ScanOk(hist, addr, from, scan)
    ensures AllReal(hist, addr, from, ScanReads(scan)) && O.Sorted(UrisOf(ScanReads(scan)))
  {
    assert scan.visits[..|scan.visits|] == scan.visits;
    ReadsAreReal(hist, addr, from, scan, |scan.visits|);
    ReadsAreSorted(scan.uris, scan.visits, |scan.visits|);
  }

  lemma SteadyScan(hist: History, addr: nat, from: nat, to: nat, scan: Scan, docs: D.Docs)
    requires ScanOk(hist, addr, from, scan) && Complete(scan) && Steady(hist, addr, from, to, docs)
    requires scan.listedAt <= to && forall i :: 0 <= i < |scan.visits| ==> scan.visits[i].at <= to
    ensures TextsOf(ScanReads(scan)) == D.InputOfListing(docs)
  {
    assert scan.visits[..|scan.visits|] == scan.visits && scan.uris[..|scan.uris|] == scan.uris;
    SteadyReads(hist, addr, from, to, scan, docs, |scan.visits|);
  }

  // ---------------------------------------------------------------- the slot and the steps of a call

  /** The slot together with what its entries were read from; no step looks at `found`. */
  datatype Traced = Traced(slot: D.Slot, found: seq<Read>)

  datatype Shared = Shared(slot: Option<Traced>, lock: Option<nat>)

  /** A fingerprint call: comparing entries under the lock (with the instants of the comparisons so
      far), about to hash, hashing, or done. `seen` is what a full pass read. */
  datatype Print =
    | Checking(seenAt: seq<nat>)
    | Missing
    | Hashing(scan: Scan)
    | Printed(fp: nat, fast: bool, end: nat, seen: seq<Read>)

  /** The first step takes the lock, compares the store's address and the number of documents, and keeps
      the lock if they match. With the lock taken the call waits. */
  function PrintStart(hist: History, sh: Shared, t: nat, addr: nat): Option<(Shared, Print)>
    requires hist != []
  {
    if sh.lock.Some? then None
    else if sh.slot.Some? && sh.slot.value.slot.addr == addr && sh.slot.value.slot.len == |Current(hist, addr)|
    then Some((sh.(lock := Some(t)), Checking([])))
    else Some((sh, Missing))
  }

  ghost function PrintStep(digest: D.Digest, hist: History, sh: Shared, addr: nat, p: Print): (Shared, Print)
    requires hist != []
  {
    match p
    case Checking(seenAt) =>
      if sh.slot.None? then (sh, p) else
      var slot := sh.slot.value.slot;
      if |seenAt| >= |slot.entries| then (sh.(lock := None), Printed(slot.fingerprint, true, Now(hist), []))
      else if D.Unchanged(Current(hist, addr), slot.entries[|seenAt|]) then (sh, Checking(seenAt + [Now(hist)]))
      else (sh.(lock := None), Missing)
    case Missing => (sh, Hashing(Listed(hist, addr)))
    case Hashing(scan) =>
      if !Complete(scan) then (sh, Hashing(Visited(hist, addr, scan)))
      else if sh.lock.Some? then (sh, p)
      else
        var found := ScanReads(scan);
        var fp := digest(TextsOf(found));
        (sh.(slot := Some(Traced(D.Slot(addr, |found|, EntriesOf(found), fp), found))),
          Printed(fp, false, Now(hist), found))
    case Printed(_, _, _, _) => (sh, p)
  }

  // ---------------------------------------------------------------- what is known of the slot and of a call

  ghost predicate TracedOk(digest: D.Digest, hist: History, tr: Traced) {
    && AllReal(hist, tr.slot.addr, 0, tr.found) && O.Sorted(UrisOf(tr.found))
    && tr.slot.len == |tr.found| && tr.slot.entries == EntriesOf(tr.found)
      && tr.slot.fingerprint == digest(TextsOf(tr.found))
  }

  ghost predicate SharedOk(digest: D.Digest, hist: History, sh: Shared) {
    sh.slot.Some? ==> TracedOk(digest, hist, sh.slot.value)
  }

  /** Every read behind the slot happened before the call began. */
  ghost predicate ReadBefore(tr: Traced, start: nat) {
    forall i :: 0 <= i < |tr.found| ==> tr.found[i].at <= start
  }

  ghost predicate CheckOk(hist: History, sh: Shared, t: nat, addr: nat, start: nat, seenAt: seq<nat>) {
    && start < |hist| && sh.lock == Some(t) && sh.slot.Some?
    && var tr := sh.slot.value;
       && tr.slot.addr == addr && tr.slot.len == |DocsOf(hist[start], addr)| && ReadBefore(tr, start)
       && |seenAt| <= |tr.slot.entries|
       && forall i :: 0 <= i < |seenAt| ==>
            start <= seenAt[i] < |hist| && D.Unchanged(DocsOf(hist[seenAt[i]], addr), tr.slot.entries[i])
  }

  /** Each change of a document, closing and opening it again included, raises its version. */
  ghost predicate VersionsGrow(hist: History, addr: nat) {
    forall u, i, j :: 0 <= i <= j < |hist| && u in DocsOf(hist[i], addr) && u in DocsOf(hist[j], addr) ==>
      DocsOf(hist[i], addr)[u].version < DocsOf(hist[j], addr)[u].version || Lasting(hist, addr, u, i, j)
  }

  ghost predicate Lasting(hist: History, addr: nat, u: string, i: int, j: int)
    requires 0 <= i <= j < |hist| && u in DocsOf(hist[i], addr)
  {
    forall k :: i <= k <= j ==> u in DocsOf(hist[k], addr) && DocsOf(hist[k], addr)[u] == DocsOf(hist[i], addr)[u]
  }

  /** Version and length determine the text, over the whole history. */
  ghost predicate Conforming(textOf: D.TextOf, hist: History, addr: nat) {
    forall i :: 0 <= i < |hist| ==> D.DocsConform(textOf, addr, DocsOf(hist[i], addr))
  }

  /** What a finished call promises of its value. */
  ghost predicate PrintedOk(digest: D.Digest, hist: History, addr: nat, start: nat, p: Print)
    requires p.Printed?
  {
    && start <= p.end < |hist|
    && (p.fast && VersionsGrow(hist, addr) ==> p.fp == D.FullFingerprint(digest, DocsOf(hist[start], addr)))
    && (!p.fast ==>
          && AllReal(hist[..p.end + 1], addr, start, p.seen) && O.Sorted(UrisOf(p.seen))
          && p.fp == digest(TextsOf(p.seen)))
    && (forall textOf, docs :: Conforming(textOf, hist, addr) && Steady(hist, addr, start, p.end, docs) ==>
          p.fp == D.FullFingerprint(digest, docs))
  }

  ghost predicate PrintOk(digest: D.Digest, hist: History, sh: Shared, t: nat, addr: nat, start: nat, p: Print) {
    && start < |hist|
    && match p
       case Checking(seenAt) => CheckOk(hist, sh, t, addr, start, seenAt)
       case Missing => true
       case Hashing(scan) => ScanOk(hist, addr, start, scan)
       case Printed(_, _, _, _) => PrintedOk(digest, hist, addr, start, p)
  }

  // ---------------------------------------------------------------- an accepted slot

  lemma EntriesOfAt(found: seq<Read>)
    ensures D.Uris(EntriesOf(found)) == UrisOf(found)
  {
  }

  /** Documents that match every entry and the count are the ones the slot was filled from. */
  lemma AcceptedTexts(found: seq<Read>, docs: D.Docs)
    requires O.Sorted(UrisOf(found)) && |found| == |docs|
    requires forall i :: 0 <= i < |found| ==> found[i].uri in docs && docs[found[i].uri].text == found[i].doc.text
                                              && docs[found[i].uri].version == found[i].doc.version
    ensures TextsOf(found) == D.InputOfListing(docs)
  {
    EntriesOfAt(found);
    D.ListingInDocs(docs);
    D.AcceptedUris(docs, EntriesOf(found));
    var uris := O.Listing(docs.Keys);
    forall i | 0 <= i < |found| ensures TextsOf(found)[i] == D.InputOf(docs, uris)[i] {
      assert UrisOf(found)[i] == uris[i];
    }
  }

  /** With growing versions an entry found unchanged has not changed since it was read. */
  lemma StillThere(hist: History, addr: nat, start: nat, r: Read, at: nat)
    requires VersionsGrow(hist, addr) && Real(hist, addr, 0, r) && r.at <= start <= at < |hist|
    requires D.Unchanged(DocsOf(hist[at], addr), D.Entry(r.uri, r.doc.version, |r.doc.text|))
    ensures r.uri in DocsOf(hist[start], addr) && DocsOf(hist[start], addr)[r.uri] == r.doc
  {
    assert Lasting(hist, addr, r.uri, r.at, at);
  }

  lemma FastWithGrowingVersions(digest: D.Digest, hist: History, sh: Shared, t: nat, addr: nat, start: nat,
      seenAt: seq<nat>)
    requires SharedOk(digest, hist, sh) && CheckOk(hist, sh, t, addr, start, seenAt) && start < |hist|
    requires |seenAt| == |sh.slot.value.slot.entries| && VersionsGrow(hist, addr)
    ensures sh.slot.value.slot.fingerprint == D.FullFingerprint(digest, DocsOf(hist[start], addr))
  {
    var tr, docs := sh.slot.value, DocsOf(hist[start], addr);
    forall i | 0 <= i < |tr.found| ensures tr.found[i].uri in docs && docs[tr.found[i].uri] == tr.found[i].doc {
      assert tr.slot.entries[i] == D.Entry(tr.found[i].uri, tr.found[i].doc.version, |tr.found[i].doc.text|);
      StillThere(hist, addr, start, tr.found[i], seenAt[i]);
    }
    AcceptedTexts(tr.found, docs);
  }

  lemma FastOverSteadyDocuments(digest: D.Digest, hist: History, sh: Shared, t: nat, addr: nat, start: nat,
      seenAt: seq<nat>, textOf: D.TextOf, docs: D.Docs)
    requires hist != [] && SharedOk(digest, hist, sh) && CheckOk(hist, sh, t, addr, start, seenAt)
    requires |seenAt| == |sh.slot.value.slot.entries| && Conforming(textOf, hist, addr)
    requires Steady(hist, addr, start, |hist| - 1, docs)
    ensures sh.slot.value.slot.fingerprint == D.FullFingerprint(digest, docs)
  {
    var tr := sh.slot.value;
    assert D.DocsConform(textOf, addr, DocsOf(hist[start], addr));
    forall i | 0 <= i < |tr.found|
      ensures tr.found[i].uri in docs && docs[tr.found[i].uri].text == tr.found[i].doc.text
      ensures docs[tr.found[i].uri].version == tr.found[i].doc.version
    {
      var r := tr.found[i];
      assert tr.slot.entries[i] == D.Entry(r.uri, r.doc.version, |r.doc.text|);
      assert D.Unchanged(DocsOf(hist[seenAt[i]], addr), tr.slot.entries[i]) && DocsOf(hist[seenAt[i]], addr) == docs;
      assert Real(hist, addr, 0, r) && D.DocsConform(textOf, addr, DocsOf(hist[r.at], addr));
    }
    AcceptedTexts(tr.found, docs);
  }

  lemma FastOk(digest: D.Digest, hist: History, sh: Shared, t: nat, addr: nat, start: nat, seenAt: seq<nat>)
    requires hist != [] && SharedOk(digest, hist, sh) && start < |hist| && CheckOk(hist, sh, t, addr, start, seenAt)
    requires |seenAt| == |sh.slot.value.slot.entries|
    ensures PrintedOk(digest, hist, addr, start, Printed(sh.slot.value.slot.fingerprint, true, Now(hist), []))
  {
    if VersionsGrow(hist, addr) {
      FastWithGrowingVersions(digest, hist, sh, t, addr, start, seenAt);
    }
    forall textOf, docs | Conforming(textOf, hist, addr) && Steady(hist, addr, start, |hist| - 1, docs)
      ensures sh.slot.value.slot.fingerprint == D.FullFingerprint(digest, docs)
    {
      FastOverSteadyDocuments(digest, hist, sh, t, addr, start, seenAt, textOf, docs);
    }
  }

  lemma SlowOk(digest: D.Digest, hist: History, addr: nat, start: nat, scan: Scan)
    requires hist != [] && start < |hist| && ScanOk(hist, addr, start, scan) && Complete(scan)
    ensures PrintedOk(digest, hist, addr, start,
      Printed(digest(TextsOf(ScanReads(scan))), false, Now(hist), ScanReads(scan)))
  {
    ScanFacts(hist, addr, start, scan);
    assert hist[..|hist|] == hist;
    forall textOf, docs | Conforming(textOf, hist, addr) && Steady(hist, addr, start, |hist| - 1, docs)
      ensures digest(TextsOf(ScanReads(scan))) == D.FullFingerprint(digest, docs)
    {
      SteadyScan(hist, addr, start, |hist| - 1, scan, docs);
    }
  }

  // ---------------------------------------------------------------- one step, and time passing

  lemma StartOk(digest: D.Digest, hist: History, sh: Shared, t: nat, addr: nat)
    requires hist != [] && SharedOk(digest, hist, sh) && PrintStart(hist, sh, t, addr).Some?
    ensures var r := PrintStart(hist, sh, t, addr).value;
      SharedOk(digest, hist, r.0) && PrintOk(digest, hist, r.0, t, addr, Now(hist), r.1)
  {
    if sh.slot.Some? {
      var tr := sh.slot.value;
      assert forall i :: 0 <= i < |tr.found| ==> Real(hist, tr.slot.addr, 0, tr.found[i]);
    }
  }

  lemma ListedOk(hist: History, addr: nat, start: nat)
    requires hist != [] && start < |hist|
    ensures ScanOk(hist, addr, start, Listed(hist, addr))
  {
  }

  lemma VisitedOk(hist: History, addr: nat, start: nat, scan: Scan)
    requires hist != [] && ScanOk(hist, addr, start, scan) && !Complete(scan)
    ensures ScanOk(hist, addr, start, Visited(hist, addr, scan))
  {
  }

  lemma StoredOk(digest: D.Digest, hist: History, addr: nat, start: nat, scan: Scan)
    requires ScanOk(hist, addr, start, scan)
    ensures var found := ScanReads(scan);
      TracedOk(digest, hist, Traced(D.Slot(addr, |found|, EntriesOf(found), digest(TextsOf(found))), found))
  {
    ScanFacts(hist, addr, start, scan);
  }

  lemma PrintStepOk(digest: D.Digest, hist: History, sh: Shared, t: nat, addr: nat, start: nat, p: Print)
    requires hist != [] && SharedOk(digest, hist, sh) && PrintOk(digest, hist, sh, t, addr, start, p)
    ensures var r := PrintStep(digest, hist, sh, addr, p);
      SharedOk(digest, hist, r.0) && PrintOk(digest, hist, r.0, t, addr, start, r.1)
  {
    match p
    case Checking(seenAt) =>
      if |seenAt| >= |sh.slot.value.slot.entries| {
        FastOk(digest, hist, sh, t, addr, start, seenAt);
      }
    case Missing => ListedOk(hist, addr, start);
    case Hashing(scan) =>
      if !Complete(scan) {
        VisitedOk(hist, addr, start, scan);
      } else if sh.lock.None? {
        StoredOk(digest, hist, addr, start, scan);
        SlowOk(digest, hist, addr, start, scan);
      }
    case Printed(_, _, _, _) =>
  }

  /** A call that is comparing entries holds the lock, so nobody else's step touches the slot. */
  lemma OthersKeepCheck(digest: D.Digest, hist: History, sh: Shared, t: nat, addr: nat, start: nat, p: Print,
      other: nat, otherAddr: nat, otherStart: nat, q: Print)
    requires hist != [] && t != other && PrintOk(digest, hist, sh, t, addr, start, p)
    requires PrintOk(digest, hist, sh, other, otherAddr, otherStart, q)
    ensures PrintOk(digest, hist, PrintStep(digest, hist, sh, otherAddr, q).0, t, addr, start, p)
  {
  }

  lemma OthersKeepStart(digest: D.Digest, hist: History, sh: Shared, t: nat, addr: nat, start: nat, p: Print,
      other: nat, otherAddr: nat)
    requires hist != [] && t != other && PrintOk(digest, hist, sh, t, addr, start, p)
    requires PrintStart(hist, sh, other, otherAddr).Some?
    ensures PrintOk(digest, hist, PrintStart(hist, sh, other, otherAddr).value.0, t, addr, start, p)
  {
  }

  lemma SteadyEarlier(hist: History, w: Stores, addr: nat, i: nat, j: nat, docs: D.Docs)
    requires j < |hist| && Steady(hist + [w], addr, i, j, docs)
    ensures Steady(hist, addr, i, j, docs)
  {
    forall k | i <= k <= j ensures DocsOf(hist[k], addr) == docs {
      assert (hist + [w])[k] == hist[k];
    }
  }

  lemma ConformingEarlier(textOf: D.TextOf, hist: History, w: Stores, addr: nat)
    requires Conforming(textOf, hist + [w], addr)
    ensures Conforming(textOf, hist, addr)
  {
    forall i | 0 <= i < |hist| ensures D.DocsConform(textOf, addr, DocsOf(hist[i], addr)) {
      assert (hist + [w])[i] == hist[i];
    }
  }

  lemma GrowEarlier(hist: History, w: Stores, addr: nat)
    requires VersionsGrow(hist + [w], addr)
    ensures VersionsGrow(hist, addr)
  {
    var more := hist + [w];
    forall u, i, j | 0 <= i <= j < |hist| && u in DocsOf(hist[i], addr) && u in DocsOf(hist[j], addr)
      ensures DocsOf(hist[i], addr)[u].version < DocsOf(hist[j], addr)[u].version || Lasting(hist, addr, u, i, j)
    {
      assert more[i] == hist[i] && more[j] == hist[j];
      if Lasting(more, addr, u, i, j) {
        forall k | i <= k <= j
          ensures u in DocsOf(hist[k], addr) && DocsOf(hist[k], addr)[u] == DocsOf(hist[i], addr)[u]
        {
          assert more[k] == hist[k];
        }
      }
    }
  }

  lemma PrintedLater(digest: D.Digest, hist: History, w: Stores, addr: nat, start: nat, p: Print)
    requires p.Printed? && PrintedOk(digest, hist, addr, start, p)
    ensures PrintedOk(digest, hist + [w], addr, start, p)
  {
    var more := hist + [w];
    assert more[..p.end + 1] == hist[..p.end + 1] && more[start] == hist[start];
    if VersionsGrow(more, addr) {
      GrowEarlier(hist, w, addr);
    }
    forall textOf, docs | Conforming(textOf, more, addr) && Steady(more, addr, start, p.end, docs)
      ensures p.fp == D.FullFingerprint(digest, docs)
    {
      ConformingEarlier(textOf, hist, w, addr);
      SteadyEarlier(hist, w, addr, start, p.end, docs);
    }
  }

  lemma ScanLater(hist: History, w: Stores, addr: nat, start: nat, scan: Scan)
    requires ScanOk(hist, addr, start, scan)
    ensures ScanOk(hist + [w], addr, start, scan)
  {
  }

  lemma RealLater(hist: History, w: Stores, addr: nat, from: nat, found: seq<Read>)
    requires AllReal(hist, addr, from, found)
    ensures AllReal(hist + [w], addr, from, found)
  {
    forall i | 0 <= i < |found| ensures Real(hist + [w], addr, from, found[i]) {
      assert Real(hist, addr, from, found[i]);
    }
  }

  lemma CheckLater(hist: History, w: Stores, sh: Shared, t: nat, addr: nat, start: nat, seenAt: seq<nat>)
    requires CheckOk(hist, sh, t, addr, start, seenAt)
    ensures CheckOk(hist + [w], sh, t, addr, start, seenAt)
  {
    var more := hist + [w];
    forall i | 0 <= i < |seenAt| ensures D.Unchanged(DocsOf(more[seenAt[i]], addr), sh.slot.value.slot.entries[i]) {
      assert more[seenAt[i]] == hist[seenAt[i]];
    }
  }

  lemma PrintLater(digest: D.Digest, hist: History, w: Stores, sh: Shared, t: nat, addr: nat, start: nat, p: Print)
    requires PrintOk(digest, hist, sh, t, addr, start, p)
    ensures PrintOk(digest, hist + [w], sh, t, addr, start, p)
  {
    match p
    case Checking(seenAt) => CheckLater(hist, w, sh, t, addr, start, seenAt);
    case Missing =>
    case Hashing(scan) => ScanLater(hist, w, addr, start, scan);
    case Printed(_, _, _, _) => PrintedLater(digest, hist, w, addr, start, p);
  }

  lemma SharedLater(digest: D.Digest, hist: History, w: Stores, sh: Shared)
    requires SharedOk(digest, hist, sh)
    ensures SharedOk(digest, hist + [w], sh)
  {
    if sh.slot.Some? {
      RealLater(hist, w, sh.slot.value.slot.addr, 0, sh.slot.value.found);
    }
  }

  // ---------------------------------------------------------------- every interleaving

  datatype Call = Idle | Active(addr: nat, start: nat, p: Print)

  datatype State = State(hist: History, sh: Shared, calls: seq<Call>)

  datatype Event =
    | Edit(edit: D.Event)
    | Start(t: nat, addr: nat)
    | Go(t: nat)

  /** The stores after an edit; asking for a fingerprint is not one. */
  function Edited(w: Stores, e: D.Event): Stores {
    var docs := DocsOf(w, e.addr);
    match e
    case Open(addr, uri, version, text) => w[addr := docs[uri := D.Doc(version, text)]]
    case Update(addr, uri, version, text) => w[addr := D.Updated(docs, uri, text, version)]
    case Close(addr, uri) => w[addr := docs - {uri}]
    case Ask(_) => w
  }

  /** Any edit, the start of any call or the next step of any call. Events out of turn change nothing. */
  ghost function Step(digest: D.Digest, s: State, e: Event): (r: State)
    requires s.hist != []
    ensures r.hist != [] && |r.calls| == |s.calls|
  {
    match e
    case Edit(edit) => s.(hist := s.hist + [Edited(s.hist[|s.hist| - 1], edit)])
    case Start(t, addr) =>
      if t >= |s.calls| || !(s.calls[t].Idle? || s.calls[t].p.Printed?) then s else
      (match PrintStart(s.hist, s.sh, t, addr)
       case None => s
       case Some(r) => s.(sh := r.0, calls := s.calls[t := Active(addr, Now(s.hist), r.1)]))
    case Go(t) =>
      if t >= |s.calls| || s.calls[t].Idle? then s else
      var c := s.calls[t];
      var r := PrintStep(digest, s.hist, s.sh, c.addr, c.p);
      s.(sh := r.0, calls := s.calls[t := c.(p := r.1)])
  }

  ghost function Run(digest: D.Digest, s: State, events: seq<Event>): (r: State)
    requires s.hist != []
    ensures r.hist != [] && |r.calls| == |s.calls|
    decreases |events|
  {
    if events == [] then s else Run(digest, Step(digest, s, events[0]), events[1..])
  }

  ghost predicate CallOk(digest: D.Digest, hist: History, sh: Shared, t: nat, c: Call) {
    c.Active? ==> PrintOk(digest, hist, sh, t, c.addr, c.start, c.p)
  }

  ghost predicate Inv(digest: D.Digest, s: State) {
    && s.hist != [] && SharedOk(digest, s.hist, s.sh)
    && forall t :: 0 <= t < |s.calls| ==> CallOk(digest, s.hist, s.sh, t, s.calls[t])
  }

  lemma EditInv(digest: D.Digest, s: State, w: Stores)
    requires Inv(digest, s)
    ensures Inv(digest, s.(hist := s.hist + [w]))
  {
    SharedLater(digest, s.hist, w, s.sh);
    forall t | 0 <= t < |s.calls| ensures CallOk(digest, s.hist + [w], s.sh, t, s.calls[t]) {
      assert CallOk(digest, s.hist, s.sh, t, s.calls[t]);
      if s.calls[t].Active? {
        PrintLater(digest, s.hist, w, s.sh, t, s.calls[t].addr, s.calls[t].start, s.calls[t].p);
      }
    }
  }

  lemma StartInv(digest: D.Digest, s: State, t: nat, addr: nat)
    requires Inv(digest, s) && t < |s.calls| && PrintStart(s.hist, s.sh, t, addr).Some?
    ensures var r := PrintStart(s.hist, s.sh, t, addr).value;
      Inv(digest, s.(sh := r.0, calls := s.calls[t := Active(addr, Now(s.hist), r.1)]))
  {
    StartOk(digest, s.hist, s.sh, t, addr);
    var r := PrintStart(s.hist, s.sh, t, addr).value;
    forall i | 0 <= i < |s.calls| && i != t ensures CallOk(digest, s.hist, r.0, i, s.calls[i]) {
      assert CallOk(digest, s.hist, s.sh, i, s.calls[i]);
      if s.calls[i].Active? {
        OthersKeepStart(digest, s.hist, s.sh, i, s.calls[i].addr, s.calls[i].start, s.calls[i].p, t, addr);
      }
    }
  }

  lemma GoInv(digest: D.Digest, s: State, t: nat)
    requires Inv(digest, s) && t < |s.calls| && s.calls[t].Active?
    ensures var c := s.calls[t];
      var r := PrintStep(digest, s.hist, s.sh, c.addr, c.p);
      Inv(digest, s.(sh := r.0, calls := s.calls[t := c.(p := r.1)]))
  {
    var c := s.calls[t];
    assert CallOk(digest, s.hist, s.sh, t, c);
    PrintStepOk(digest, s.hist, s.sh, t, c.addr, c.start, c.p);
    var r := PrintStep(digest, s.hist, s.sh, c.addr, c.p);
    forall i | 0 <= i < |s.calls| && i != t ensures CallOk(digest, s.hist, r.0, i, s.calls[i]) {
      assert CallOk(digest, s.hist, s.sh, i, s.calls[i]);
      if s.calls[i].Active? {
        OthersKeepCheck(digest, s.hist, s.sh, i, s.calls[i].addr, s.calls[i].start, s.calls[i].p, t, c.addr, c.start,
          c.p);
      }
    }
  }

  lemma StepInv(digest: D.Digest, s: State, e: Event)
    requires Inv(digest, s)
    ensures Inv(digest, Step(digest, s, e))
  {
    match e
    case Edit(edit) => EditInv(digest, s, Edited(s.hist[|s.hist| - 1], edit));
    case Start(t, addr) =>
      if t < |s.calls| && (s.calls[t].Idle? || s.calls[t].p.Printed?) && PrintStart(s.hist, s.sh, t, addr).Some? {
        StartInv(digest, s, t, addr);
      }
    case Go(t) =>
      if t < |s.calls| && s.calls[t].Active? {
        GoInv(digest, s, t);
      }
  }

  ghost predicate Initial(s: State) {
    s.hist == [map[]] && s.sh == Shared(None, None) && forall t :: 0 <= t < |s.calls| ==> s.calls[t].Idle?
  }

  lemma {:induction false} RunInv(digest: D.Digest, s: State, events: seq<Event>)
    requires Inv(digest, s)
    ensures Inv(digest, Run(digest, s, events))
    decreases |events|
  {
    if events != [] {
      StepInv(digest, s, events[0]);
      RunInv(digest, Step(digest, s, events[0]), events[1..]);
    }
  }

  /** An accepted slot is the digest of all open documents at one instant of the call, its start, in
      every interleaving in which each change of a document raises its version. */
  lemma AcceptedAtOneInstant(digest: D.Digest, s: State, events: seq<Event>, t: nat)
    requires Initial(s) && t < |s.calls|
    ensures
      var end := Run(digest, s, events);
      var c := end.calls[t];
      c.Active? && c.p.Printed? && c.p.fast && VersionsGrow(end.hist, c.addr) ==>
        c.start <= c.p.end < |end.hist| && c.p.fp == D.FullFingerprint(digest, DocsOf(end.hist[c.start], c.addr))
  {
    RunInv(digest, s, events);
    var end := Run(digest, s, events);
    assert CallOk(digest, end.hist, end.sh, t, end.calls[t]);
  }

  /** A full pass digests, in sorted order, documents each of which was open with that text at an instant
      of the call, not necessarily the same one. */
  lemma FullPassIsAMix(digest: D.Digest, s: State, events: seq<Event>, t: nat)
    requires Initial(s) && t < |s.calls|
    ensures
      var end := Run(digest, s, events);
      var c := end.calls[t];
      c.Active? && c.p.Printed? && !c.p.fast ==>
        && c.p.fp == digest(TextsOf(c.p.seen)) && O.Sorted(UrisOf(c.p.seen))
        && c.start <= c.p.end < |end.hist| && AllReal(end.hist[..c.p.end + 1], c.addr, c.start, c.p.seen)
  {
    RunInv(digest, s, events);
    var end := Run(digest, s, events);
    assert CallOk(digest, end.hist, end.sh, t, end.calls[t]);
  }

  /** Either way the value is exact for documents that do not change during the call, in every
      interleaving in which version and length determine the text. */
  lemma ExactOverSteadyDocuments(digest: D.Digest, s: State, events: seq<Event>, t: nat, textOf: D.TextOf, docs: D.Docs)
    requires Initial(s) && t < |s.calls|
    ensures
      var end := Run(digest, s, events);
      var c := end.calls[t];
      c.Active? && c.p.Printed? && Conforming(textOf, end.hist, c.addr)
        && Steady(end.hist, c.addr, c.start, c.p.end, docs) ==>
        c.p.fp == D.FullFingerprint(digest, docs)
  {
    RunInv(digest, s, events);
    var end := Run(digest, s, events);
    assert CallOk(digest, end.hist, end.sh, t, end.calls[t]);
  }

  // ---------------------------------------------------------------- a pass over changing documents

  lemma {:induction false} RunConcat(digest: D.Digest, s: State, xs: seq<Event>, ys: seq<Event>)
    requires s.hist != []
    ensures Run(digest, s, xs + ys) == Run(digest, Run(digest, s, xs), ys)
    decreases |xs|
  {
    if xs == [] {
      assert xs + ys == ys;
    } else {
      assert (xs + ys)[1..] == xs[1..] + ys;
      RunConcat(digest, Step(digest, s, xs[0]), xs[1..], ys);
    }
  }

  lemma RunOne(digest: D.Digest, s: State, e: Event, rest: seq<Event>)
    requires s.hist != []
    ensures Run(digest, s, [e] + rest) == Run(digest, Step(digest, s, e), rest)
  {
    assert ([e] + rest)[1..] == rest;
  }

  /** Two documents are opened and a full pass begins: it lists both and reads the first. */
  function OpenTwo(a: string, b: string, a0: string, b0: string): seq<Event> {
    [Edit(D.Open(0, a, 1, a0)), Edit(D.Open(0, b, 1, b0)), Start(0, 0), Go(0), Go(0)]
  }

  /** Both change, and the pass reads the second. */
  function ChangeBoth(a: string, b: string, a1: string, b1: string): seq<Event> {
    [Edit(D.Update(0, a, 2, a1)), Edit(D.Update(0, b, 2, b1)), Go(0), Go(0)]
  }

  function World(a: string, b: string, v: D.Doc, w: D.Doc): Stores {
    map[0 := map[a := v, b := w]]
  }

  lemma OpenedSecond(a: string, b: string, v: D.Doc, version: int, text: string)
    requires a != b
    ensures Edited(map[0 := map[a := v]], D.Open(0, b, version, text)) == World(a, b, v, D.Doc(version, text))
  {
    assert map[a := v][b := D.Doc(version, text)] == map[a := v, b := D.Doc(version, text)];
  }

  lemma UpdatedWorld(a: string, b: string, v: D.Doc, w: D.Doc, version: int, text: string)
    requires a != b
    ensures Edited(World(a, b, v, w), D.Update(0, a, version, text)) == World(a, b, D.Doc(version, text), w)
    ensures Edited(World(a, b, v, w), D.Update(0, b, version, text)) == World(a, b, v, D.Doc(version, text))
  {
    var docs, d := map[a := v, b := w], D.Doc(version, text);
    assert docs[a := d] == map[a := d, b := w] && docs[b := d] == map[a := v, b := d];
  }

  lemma HalfRead(digest: D.Digest, a: string, b: string, a0: string, b0: string)
    requires O.Less(a, b)
    ensures
      var h := [map[], map[0 := map[a := D.Doc(1, a0)]], World(a, b, D.Doc(1, a0), D.Doc(1, b0))];
      Run(digest, State([map[]], Shared(None, None), [Idle]), OpenTwo(a, b, a0, b0)) ==
        State(h, Shared(None, None), [Active(0, 2, Hashing(Scan([a, b], 2, [Visit(Some(D.Doc(1, a0)), 2)])))])
  {
    var s0 := State([map[]], Shared(None, None), [Idle]);
    var h1 := [map[], map[0 := map[a := D.Doc(1, a0)]]];
    var h2 := h1 + [World(a, b, D.Doc(1, a0), D.Doc(1, b0))];
    var e1, e2 := Edit(D.Open(0, a, 1, a0)), Edit(D.Open(0, b, 1, b0));
    var s1, s2 := State(h1, s0.sh, [Idle]), State(h2, s0.sh, [Idle]);
    assert Step(digest, s0, e1) == s1;
    OpenedSecond(a, b, D.Doc(1, a0), 1, b0);
    assert Step(digest, s1, e2) == s2;
    var pass := [Start(0, 0), Go(0), Go(0)];
    assert OpenTwo(a, b, a0, b0) == [e1] + ([e2] + pass);
    RunOne(digest, s0, e1, [e2] + pass);
    RunOne(digest, s1, e2, pass);
    PassBegins(digest, h2, a, b, D.Doc(1, a0), D.Doc(1, b0));
  }

  lemma PassBegins(digest: D.Digest, h: History, a: string, b: string, v: D.Doc, w: D.Doc)
    requires O.Less(a, b) && |h| == 3 && h[2] == World(a, b, v, w)
    ensures Run(digest, State(h, Shared(None, None), [Idle]), [Start(0, 0), Go(0), Go(0)]) ==
      State(h, Shared(None, None), [Active(0, 2, Hashing(Scan([a, b], 2, [Visit(Some(v), 2)])))])
  {
    var none := Shared(None, None);
    var docs := map[a := v, b := w];
    assert Current(h, 0) == docs;
    var s := State(h, none, [Idle]);
    var s1, s2 := State(h, none, [Active(0, 2, Missing)]), State(h, none, [Active(0, 2, Hashing(Scan([a, b], 2, [])))]);
    assert Step(digest, s, Start(0, 0)) == s1;
    D.TwoListed(docs, a, b);
    assert Step(digest, s1, Go(0)) == s2;
    assert Visited(h, 0, Scan([a, b], 2, [])) == Scan([a, b], 2, [Visit(Some(v), 2)]);
    assert [Start(0, 0), Go(0), Go(0)] == [Start(0, 0)] + ([Go(0)] + ([Go(0)] + []));
    RunOne(digest, s, Start(0, 0), [Go(0)] + ([Go(0)] + []));
    RunOne(digest, s1, Go(0), [Go(0)] + []);
    RunOne(digest, s2, Go(0), []);
  }

  lemma TwoVisits(a: string, b: string, v: D.Doc, w: D.Doc, i: nat, j: nat)
    ensures TextsOf(ScanReads(Scan([a, b], 2, [Visit(Some(v), i), Visit(Some(w), j)]))) == [(a, v.text), (b, w.text)]
  {
    var uris, visits := [a, b], [Visit(Some(v), i), Visit(Some(w), j)];
    FoundSnoc(uris, visits, 0);
    FoundSnoc(uris, visits, 1);
    assert visits[..2] == visits && visits[..0] == [];
  }

  /** The call of the witness once it has read the first document. */
  function HalfWay(a: string, b: string, a0: string): Call {
    Active(0, 2, Hashing(Scan([a, b], 2, [Visit(Some(D.Doc(1, a0)), 2)])))
  }

  lemma BothChanged(digest: D.Digest, h: History, c: Call, a: string, b: string, a0: string, b0: string, a1: string,
      b1: string)
    requires a != b && h != [] && h[|h| - 1] == World(a, b, D.Doc(1, a0), D.Doc(1, b0))
    ensures Run(digest, State(h, Shared(None, None), [c]),
      [Edit(D.Update(0, a, 2, a1)), Edit(D.Update(0, b, 2, b1))]) ==
      State(h + [World(a, b, D.Doc(2, a1), D.Doc(1, b0)), World(a, b, D.Doc(2, a1), D.Doc(2, b1))], Shared(None, None),
        [c])
  {
    var none := Shared(None, None);
    var h1 := h + [World(a, b, D.Doc(2, a1), D.Doc(1, b0))];
    var e1, e2 := Edit(D.Update(0, a, 2, a1)), Edit(D.Update(0, b, 2, b1));
    UpdatedWorld(a, b, D.Doc(1, a0), D.Doc(1, b0), 2, a1);
    UpdatedWorld(a, b, D.Doc(2, a1), D.Doc(1, b0), 2, b1);
    assert [e1, e2] == [e1] + ([e2] + []);
    RunOne(digest, State(h, none, [c]), e1, [e2] + []);
    RunOne(digest, State(h1, none, [c]), e2, []);
    assert h1 + [World(a, b, D.Doc(2, a1), D.Doc(2, b1))] ==
      h + [World(a, b, D.Doc(2, a1), D.Doc(1, b0)), World(a, b, D.Doc(2, a1), D.Doc(2, b1))];
  }

  lemma SecondRead(digest: D.Digest, h: History, a: string, b: string, a0: string, v: D.Doc, w: D.Doc)
    requires a != b && |h| == 5 && h[4] == World(a, b, v, w)
    ensures
      var end := Run(digest, State(h, Shared(None, None), [HalfWay(a, b, a0)]), [Go(0), Go(0)]);
      && end.hist == h && end.calls[0].Active? && end.calls[0].p.Printed? && !end.calls[0].p.fast
      && end.calls[0].p.fp == digest([(a, a0), (b, w.text)])
  {
    var none := Shared(None, None);
    var s := State(h, none, [HalfWay(a, b, a0)]);
    var scan := Scan([a, b], 2, [Visit(Some(D.Doc(1, a0)), 2), Visit(Some(w), 4)]);
    assert Visited(h, 0, HalfWay(a, b, a0).p.scan) == scan;
    var s1 := State(h, none, [Active(0, 2, Hashing(scan))]);
    assert Step(digest, s, Go(0)) == s1;
    TwoVisits(a, b, D.Doc(1, a0), w, 2, 4);
    assert [Go(0), Go(0)] == [Go(0)] + ([Go(0)] + []);
    RunOne(digest, s, Go(0), [Go(0)] + []);
    RunOne(digest, s1, Go(0), []);
  }

  lemma OtherHalf(digest: D.Digest, h: History, a: string, b: string, a0: string, b0: string, a1: string, b1: string)
    requires a != b && |h| == 3 && h[2] == World(a, b, D.Doc(1, a0), D.Doc(1, b0))
    ensures
      var end := Run(digest, State(h, Shared(None, None), [HalfWay(a, b, a0)]), ChangeBoth(a, b, a1, b1));
      && end.hist == h + [World(a, b, D.Doc(2, a1), D.Doc(1, b0)), World(a, b, D.Doc(2, a1), D.Doc(2, b1))]
      && end.calls[0].Active? && end.calls[0].p.Printed? && !end.calls[0].p.fast
      && end.calls[0].p.fp == digest([(a, a0), (b, b1)])
  {
    var s := State(h, Shared(None, None), [HalfWay(a, b, a0)]);
    var edits := [Edit(D.Update(0, a, 2, a1)), Edit(D.Update(0, b, 2, b1))];
    assert ChangeBoth(a, b, a1, b1) == edits + [Go(0), Go(0)];
    RunConcat(digest, s, edits, [Go(0), Go(0)]);
    BothChanged(digest, h, HalfWay(a, b, a0), a, b, a0, b0, a1, b1);
    SecondRead(digest, Run(digest, s, edits).hist, a, b, a0, D.Doc(2, a1), D.Doc(2, b1));
  }

  lemma InputHas(docs: D.Docs, i: nat)
    requires i < |D.InputOfListing(docs)|
    ensures var (u, text) := D.InputOfListing(docs)[i]; u in docs && docs[u].text == text
  {
    D.ListingInDocs(docs);
  }

  /** A full pass over two documents that change between their turns digests a pair of texts that were
      never open together. */
  lemma TornPass(digest: D.Digest, a: string, b: string, a0: string, b0: string, a1: string, b1: string)
    requires O.Less(a, b) && a0 != a1 && b0 != b1
    ensures
      var s := State([map[]], Shared(None, None), [Idle]);
      var end := Run(digest, s, OpenTwo(a, b, a0, b0) + ChangeBoth(a, b, a1, b1));
      && Initial(s) && end.calls[0].Active? && end.calls[0].p.Printed?
      && end.calls[0].p.fp == digest([(a, a0), (b, b1)])
      && forall i :: 0 <= i < |end.hist| ==> D.InputOfListing(DocsOf(end.hist[i], 0)) != [(a, a0), (b, b1)]
  {
    var s := State([map[]], Shared(None, None), [Idle]);
    RunConcat(digest, s, OpenTwo(a, b, a0, b0), ChangeBoth(a, b, a1, b1));
    HalfRead(digest, a, b, a0, b0);
    var h := [map[], map[0 := map[a := D.Doc(1, a0)]], World(a, b, D.Doc(1, a0), D.Doc(1, b0))];
    OtherHalf(digest, h, a, b, a0, b0, a1, b1);
    var end := Run(digest, s, OpenTwo(a, b, a0, b0) + ChangeBoth(a, b, a1, b1));
    forall i | 0 <= i < |end.hist| ensures D.InputOfListing(DocsOf(end.hist[i], 0)) != [(a, a0), (b, b1)] {
      NeverTogether(DocsOf(end.hist[i], 0), a, b, a0, b1);
    }
  }

  lemma NeverTogether(docs: D.Docs, a: string, b: string, v: string, w: string)
    requires !(a in docs && b in docs && docs[a].text == v && docs[b].text == w)
    ensures D.InputOfListing(docs) != [(a, v), (b, w)]
  {
    if |D.InputOfListing(docs)| == 2 {
      InputHas(docs, 0);
      InputHas(docs, 1);
    }
  }
}
