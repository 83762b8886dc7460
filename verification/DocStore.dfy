/** Open documents, the digest of all of them, and the shortcut that avoids recomputing it. */
module DocStore {
  import opened Common
  import opened Ordering

  datatype Doc = Doc(version: int, text: string)

  type Docs = map<string, Doc>

  /** The hasher fed with every (uri, text), in order. Any function will do. */
  type Digest = seq<(string, string)> -> nat

  // ---------------------------------------------------------------- the store

  class DocumentStore {
    var docs: Docs

    constructor ()
      ensures docs == map[]
    {
      docs := map[];
    }

    method Open(uri: string, version: int, text: string)
      modifies this
      ensures docs == old(docs)[uri := Doc(version, text)]
    {
      docs := docs[uri := Doc(version, text)];
    }

    /** A change to a document that is not open is ignored. */
    method UpdateFull(uri: string, text: string, version: int)
      modifies this
      ensures docs == Updated(old(docs), uri, text, version)
    {
      if uri in docs {
        docs := docs[uri := Doc(version, text)];
      }
    }

    method Close(uri: string)
      modifies this
      ensures docs == old(docs) - {uri}
    {
      docs := docs - {uri};
    }

    /** Whatever order the map yields its keys in, the result is their sorted listing. */
    method OpenUris() returns (uris: seq<string>)
      ensures uris == Listing(docs.Keys)
    {
      uris := [];
      var left := docs.Keys;
      while left != {}
        invariant left <= docs.Keys
        invariant Sorted(uris) && Members(uris) == docs.Keys - left
        decreases |left|
      {
        var u :| u in left;
        assert u !in Members(uris);
        InsertSortedFacts(uris, u);
        uris := InsertSorted(uris, u);
        left := left - {u};
      }
      SortedUnique(uris, Listing(docs.Keys));
    }
  }

  function Updated(docs: Docs, uri: string, text: string, version: int): Docs {
    if uri in docs then docs[uri := Doc(version, text)] else docs
  }

  // ---------------------------------------------------------------- the fingerprint

  datatype Entry = Entry(uri: string, version: int, textLen: nat)

  datatype Slot = Slot(addr: nat, len: nat, entries: seq<Entry>, fingerprint: nat)

  function InputOf(docs: Docs, uris: seq<string>): seq<(string, string)>
    requires forall i :: 0 <= i < |uris| ==> uris[i] in docs
  {
    seq(|uris|, i requires 0 <= i < |uris| => (uris[i], docs[uris[i]].text))
  }

  function EntriesOf(docs: Docs, uris: seq<string>): seq<Entry>
    requires forall i :: 0 <= i < |uris| ==> uris[i] in docs
  {
    seq(|uris|, i requires 0 <= i < |uris| => Entry(uris[i], docs[uris[i]].version, |docs[uris[i]].text|))
  }

  lemma ListingInDocs(docs: Docs)
    ensures forall i :: 0 <= i < |Listing(docs.Keys)| ==> Listing(docs.Keys)[i] in docs
  {
    assert forall i :: 0 <= i < |Listing(docs.Keys)| ==> Listing(docs.Keys)[i] in Members(Listing(docs.Keys));
  }

  lemma TwoListed(docs: Docs, a: string, b: string)
    requires Less(a, b) && docs.Keys == {a, b}
    ensures Listing(docs.Keys) == [a, b]
  {
    assert Sorted([a, b]) && Members([a, b]) == docs.Keys;
    SortedUnique([a, b], Listing(docs.Keys));
  }

  /** What hashing every open document gives. */
  ghost function FullFingerprint(digest: Digest, docs: Docs): nat {
    ListingInDocs(docs);
    digest(InputOf(docs, Listing(docs.Keys)))
  }

  predicate Unchanged(docs: Docs, e: Entry) {
    e.uri in docs && docs[e.uri].version == e.version && |docs[e.uri].text| == e.textLen
  }

  predicate AllUnchanged(docs: Docs, entries: seq<Entry>) {
    forall i :: 0 <= i < |entries| ==> Unchanged(docs, entries[i])
  }

  predicate Accepts(slot: Option<Slot>, addr: nat, docs: Docs) {
    slot.Some? && slot.value.addr == addr && slot.value.len == |docs| && AllUnchanged(docs, slot.value.entries)
  }

  ghost function FreshSlot(digest: Digest, addr: nat, docs: Docs): Slot {
    ListingInDocs(docs);
    var uris := Listing(docs.Keys);
    Slot(addr, |uris|, EntriesOf(docs, uris), digest(InputOf(docs, uris)))
  }

  /** The process-wide slot. */
  class FingerprintCache {
    var slot: Option<Slot>

    constructor ()
      ensures slot == None
    {
      slot := None;
    }

    /** `cached_docstore_fingerprint`. */
    method Cached(docs: Docs, addr: nat) returns (r: Option<nat>)
      ensures r == if Accepts(slot, addr, docs) then Some(slot.value.fingerprint) else None
    {
      if slot.None? || slot.value.addr != addr || slot.value.len != |docs| {
        return None;
      }
      var entries := slot.value.entries;
      for i := 0 to |entries|
        invariant forall j :: 0 <= j < i ==> Unchanged(docs, entries[j])
      {
        if !Unchanged(docs, entries[i]) {
          return None;
        }
      }
      return Some(slot.value.fingerprint);
    }

    /** `docstore_fingerprint`: the slot if it is accepted, otherwise a full pass that refills it. */
    method Fingerprint(store: DocumentStore, addr: nat, digest: Digest) returns (r: nat)
      modifies this
      ensures store.docs == old(store.docs)
      ensures Accepts(old(slot), addr, store.docs) ==> slot == old(slot) && r == slot.value.fingerprint
      ensures !Accepts(old(slot), addr, store.docs) ==>
        slot == Some(FreshSlot(digest, addr, store.docs)) && r == slot.value.fingerprint
    {
      var docs := store.docs;
      var hit := Cached(docs, addr);
      if hit.Some? {
        return hit.value;
      }
      var uris := store.OpenUris();
      ListingInDocs(docs);
      r := digest(InputOf(docs, uris));
      slot := Some(Slot(addr, |uris|, EntriesOf(docs, uris), r));
    }
  }

  // ---------------------------------------------------------------- exactness over whole sessions

  datatype Event =
    | Open(addr: nat, uri: string, version: int, text: string)
    | Update(addr: nat, uri: string, version: int, text: string)
    | Close(addr: nat, uri: string)
    | Ask(addr: nat)

  datatype Session = Session(stores: map<nat, Docs>, slot: Option<Slot>)

  function DocsAt(s: Session, addr: nat): Docs {
    if addr in s.stores then s.stores[addr] else map[]
  }

  ghost function Step(digest: Digest, s: Session, e: Event): Session {
    var docs := DocsAt(s, e.addr);
    match e
    case Open(addr, uri, version, text) => s.(stores := s.stores[addr := docs[uri := Doc(version, text)]])
    case Update(addr, uri, version, text) => s.(stores := s.stores[addr := Updated(docs, uri, text, version)])
    case Close(addr, uri) => s.(stores := s.stores[addr := docs - {uri}])
    case Ask(addr) => if Accepts(s.slot, addr, docs) then s else s.(slot := Some(FreshSlot(digest, addr, docs)))
  }

  /** What a fingerprint call on the store at `addr` returns. */
  ghost function Answer(digest: Digest, s: Session, addr: nat): nat {
    Step(digest, s, Ask(addr)).slot.value.fingerprint
  }

  ghost function Run(digest: Digest, s: Session, events: seq<Event>): Session
    decreases |events|
  {
    if events == [] then s else Run(digest, Step(digest, s, events[0]), events[1..])
  }

  /** The text a store, a uri, a version and a length stand for. */
  type TextOf = (nat, string, int, nat) -> string

  predicate Conforms(textOf: TextOf, e: Event) {
    e.Open? || e.Update? ==> e.text == textOf(e.addr, e.uri, e.version, |e.text|)
  }

  ghost predicate DocsConform(textOf: TextOf, addr: nat, docs: Docs) {
    forall u :: u in docs ==> docs[u].text == textOf(addr, u, docs[u].version, |docs[u].text|)
  }

  function Texts(textOf: TextOf, addr: nat, entries: seq<Entry>): seq<(string, string)> {
    seq(|entries|, i requires 0 <= i < |entries| =>
      (entries[i].uri, textOf(addr, entries[i].uri, entries[i].version, entries[i].textLen)))
  }

  function Uris(entries: seq<Entry>): seq<string> {
    seq(|entries|, i requires 0 <= i < |entries| => entries[i].uri)
  }

  ghost predicate SlotOk(digest: Digest, textOf: TextOf, slot: Slot) {
    && slot.len == |slot.entries|
    && Sorted(Uris(slot.entries))
    && slot.fingerprint == digest(Texts(textOf, slot.addr, slot.entries))
  }

  ghost predicate Inv(digest: Digest, textOf: TextOf, s: Session) {
    && (forall a :: a in s.stores ==> DocsConform(textOf, a, s.stores[a]))
    && (s.slot.Some? ==> SlotOk(digest, textOf, s.slot.value))
  }

  lemma FreshSlotOk(digest: Digest, textOf: TextOf, addr: nat, docs: Docs)
    requires DocsConform(textOf, addr, docs)
    ensures SlotOk(digest, textOf, FreshSlot(digest, addr, docs))
  {
    ListingInDocs(docs);
    var uris := Listing(docs.Keys);
    var entries := EntriesOf(docs, uris);
    assert Uris(entries) == uris;
    assert Texts(textOf, addr, entries) == InputOf(docs, uris);
  }

  /** Equal length and distinct entries force equal uri sets; one set has one sorted listing. */
  lemma AcceptedUris(docs: Docs, entries: seq<Entry>)
    requires Sorted(Uris(entries)) && |entries| == |docs| && AllUnchanged(docs, entries)
    ensures Uris(entries) == Listing(docs.Keys)
  {
    var uris := Uris(entries);
    MembersCount(uris);
    assert Members(uris) <= docs.Keys by {
      forall u | u in Members(uris) ensures u in docs.Keys {
        var i :| 0 <= i < |uris| && uris[i] == u;
        assert Unchanged(docs, entries[i]);
      }
    }
    SubsetOfSameSize(Members(uris), docs.Keys);
    SortedUnique(uris, Listing(docs.Keys));
  }

  /** An accepted slot holds the value a full pass would compute. */
  lemma AcceptedIsExact(digest: Digest, textOf: TextOf, slot: Slot, addr: nat, docs: Docs)
    requires SlotOk(digest, textOf, slot) && DocsConform(textOf, addr, docs) && Accepts(Some(slot), addr, docs)
    ensures slot.fingerprint == FullFingerprint(digest, docs)
  {
    AcceptedUris(docs, slot.entries);
    ListingInDocs(docs);
    var uris := Listing(docs.Keys);
    forall i | 0 <= i < |uris| ensures Texts(textOf, addr, slot.entries)[i] == InputOf(docs, uris)[i] {
      assert Unchanged(docs, slot.entries[i]) && Uris(slot.entries)[i] == uris[i];
    }
    assert Texts(textOf, addr, slot.entries) == InputOf(docs, uris);
  }

  lemma StepInv(digest: Digest, textOf: TextOf, s: Session, e: Event)
    requires Inv(digest, textOf, s) && Conforms(textOf, e)
    ensures Inv(digest, textOf, Step(digest, s, e))
  {
    assert DocsConform(textOf, e.addr, DocsAt(s, e.addr));
    if e.Ask? {
      FreshSlotOk(digest, textOf, e.addr, DocsAt(s, e.addr));
    }
  }

  lemma {:induction false} RunInv(digest: Digest, textOf: TextOf, s: Session, events: seq<Event>)
    requires Inv(digest, textOf, s)
    requires forall i :: 0 <= i < |events| ==> Conforms(textOf, events[i])
    ensures Inv(digest, textOf, Run(digest, s, events))
    decreases |events|
  {
    if events != [] {
      StepInv(digest, textOf, s, events[0]);
      RunInv(digest, textOf, Step(digest, s, events[0]), events[1..]);
    }
  }

  /** After any session in which store, uri, version and length determine the text, the shortcut
      returns exactly what hashing every open document returns. */
  lemma ShortcutIsExact(digest: Digest, textOf: TextOf, events: seq<Event>, addr: nat)
    requires forall i :: 0 <= i < |events| ==> Conforms(textOf, events[i])
    ensures
      var s := Run(digest, Session(map[], None), events);
      Answer(digest, s, addr) == FullFingerprint(digest, DocsAt(s, addr))
  {
    var s0 := Session(map[], None);
    RunInv(digest, textOf, s0, events);
    var s := Run(digest, s0, events);
    var docs := DocsAt(s, addr);
    assert DocsConform(textOf, addr, docs);
    if Accepts(s.slot, addr, docs) {
      AcceptedIsExact(digest, textOf, s.slot.value, addr, docs);
    }
  }

  ghost function InputOfListing(docs: Docs): seq<(string, string)> {
    ListingInDocs(docs);
    InputOf(docs, Listing(docs.Keys))
  }

  lemma AcceptedKeys(digest: Digest, addr: nat, before: Docs, after: Docs)
    requires Accepts(Some(FreshSlot(digest, addr, before)), addr, after)
    ensures before.Keys == after.Keys
  {
    ListingInDocs(before);
    var uris := Listing(before.Keys);
    assert Uris(EntriesOf(before, uris)) == uris;
    AcceptedUris(after, EntriesOf(before, uris));
    assert Members(uris) == after.Keys;
  }

  lemma SameInputIff(before: Docs, after: Docs)
    requires before.Keys == after.Keys
    ensures InputOfListing(before) == InputOfListing(after) <==> forall u :: u in before ==>
      before[u].text == after[u].text
  {
    ListingInDocs(before);
    var uris := Listing(before.Keys);
    if u :| u in before && before[u].text != after[u].text {
      assert u in Members(uris);
      var i :| 0 <= i < |uris| && uris[i] == u;
      assert InputOf(before, uris)[i] != InputOf(after, uris)[i];
    } else {
      assert InputOf(before, uris) == InputOf(after, uris);
    }
  }

  /** With a digest that tells the two contents apart, an accepted slot is exact precisely when no
      document's text changed since it was filled: reopening a document under its old version number
      with another text of the same length is the way to break it. */
  lemma AcceptedExactIff(digest: Digest, addr: nat, before: Docs, after: Docs)
    requires Accepts(Some(FreshSlot(digest, addr, before)), addr, after)
    requires digest(InputOfListing(before)) == digest(InputOfListing(after)) ==>
      InputOfListing(before) == InputOfListing(after)
    ensures before.Keys == after.Keys
    ensures FreshSlot(digest, addr, before).fingerprint == FullFingerprint(digest, after)
       <==> forall u :: u in before ==> before[u].text == after[u].text
  {
    AcceptedKeys(digest, addr, before, after);
    SameInputIff(before, after);
  }

  /** The session that breaks it: open, ask, open again under the same version with another text of the
      same length, ask. The second answer is the first one. */
  lemma ReopenGoesStale(digest: Digest, addr: nat, uri: string, version: int, was: string, now: string)
    requires |was| == |now| && digest([(uri, was)]) != digest([(uri, now)])
    ensures
      var s := Run(digest, Session(map[], None),
        [Open(addr, uri, version, was), Ask(addr), Open(addr, uri, version, now)]);
      && Accepts(s.slot, addr, DocsAt(s, addr))
      && Answer(digest, s, addr) == digest([(uri, was)])
      && FullFingerprint(digest, DocsAt(s, addr)) == digest([(uri, now)])
  {
    var s0 := Session(map[], None);
    var e1, e2, e3 := Open(addr, uri, version, was), Ask(addr), Open(addr, uri, version, now);
    var d1, d2 := map[uri := Doc(version, was)], map[uri := Doc(version, now)];
    var s1 := Step(digest, s0, e1);
    var s2 := Step(digest, s1, e2);
    var s3 := Step(digest, s2, e3);
    assert [e1, e2, e3][1..] == [e2, e3] && [e2, e3][1..] == [e3] && [e3][1..] == [];
    assert Run(digest, s0, [e1, e2, e3]) == Run(digest, s1, [e2, e3]) == Run(digest, s2, [e3]) ==
      Run(digest, s3, []) == s3;
    assert DocsAt(s1, addr) == d1 && DocsAt(s3, addr) == d2;
    SingleDocument(digest, addr, uri, d1);
    SingleDocument(digest, addr, uri, d2);
  }

  lemma SingleDocument(digest: Digest, addr: nat, uri: string, docs: Docs)
    requires docs.Keys == {uri}
    ensures FullFingerprint(digest, docs) == digest([(uri, docs[uri].text)])
    ensures FreshSlot(digest, addr, docs) ==
      Slot(addr, 1, [Entry(uri, docs[uri].version, |docs[uri].text|)], digest([(uri, docs[uri].text)]))
  {
    SortedUnique([uri], Listing({uri}));
    assert Listing(docs.Keys) == [uri];
    assert InputOf(docs, [uri]) == [(uri, docs[uri].text)];
    assert EntriesOf(docs, [uri]) == [Entry(uri, docs[uri].version, |docs[uri].text|)];
  }
}
