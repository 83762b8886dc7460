/** The table-name index of the workspace: two maps kept in step, against a specification that only
    looks at the history of events. */
module WorkspaceIndex {
  import opened Common

  datatype Index = Index(byName: map<string, string>, byUri: map<string, string>)

  /** A document whose top-level name is `name` (or that has none) was opened or changed, or closed. */
  datatype Event = Upsert(uri: string, name: Option<string>) | Remove(uri: string)

  /** Give up the name held by `uri`, if the name still points there. */
  function Released(ix: Index, uri: string): map<string, string> {
    if uri in ix.byUri && ix.byUri[uri] in ix.byName && ix.byName[ix.byUri[uri]] == uri
    then ix.byName - {ix.byUri[uri]} else ix.byName
  }

  function Apply(ix: Index, e: Event): Index {
    var names := Released(ix, e.uri);
    match e
    case Upsert(uri, Some(n)) => Index(names[n := uri], ix.byUri[uri := n])
    case Upsert(uri, None) => Index(names, ix.byUri - {uri})
    case Remove(uri) => Index(names, ix.byUri - {uri})
  }

  function Lookup(ix: Index, name: string): Option<string> {
    if name in ix.byName then Some(ix.byName[name]) else None
  }

  function NameOf(ix: Index, uri: string): Option<string> {
    if uri in ix.byUri then Some(ix.byUri[uri]) else None
  }

  class WorkspaceIndex {
    var byName: map<string, string>
    var byUri: map<string, string>

    ghost function Contents(): Index
      reads this
    {
      Index(byName, byUri)
    }

    constructor ()
      ensures Contents() == Index(map[], map[])
    {
      byName, byUri := map[], map[];
    }

    method Upsert(uri: string, name: Option<string>) returns (previous: Option<string>)
      modifies this
      ensures Contents() == Apply(old(Contents()), Event.Upsert(uri, name))
      ensures previous == NameOf(old(Contents()), uri)
    {
      previous := None;
      if uri in byUri {
        previous := Some(byUri[uri]);
        if previous.value in byName && byName[previous.value] == uri {
          byName := byName - {previous.value};
        }
      }
      match name {
        case Some(n) =>
          byUri := byUri[uri := n];
          byName := byName[n := uri];
        case None =>
          byUri := byUri - {uri};
      }
    }

    method Remove(uri: string)
      modifies this
      ensures Contents() == Apply(old(Contents()), Event.Remove(uri))
    {
      if uri in byUri {
        var name := byUri[uri];
        byUri := byUri - {uri};
        if name in byName && byName[name] == uri {
          byName := byName - {name};
        }
      } else {
        assert byUri - {uri} == byUri;
      }
    }

    method Find(name: string) returns (uri: Option<string>)
      ensures uri == Lookup(Contents(), name)
    {
      uri := if name in byName then Some(byName[name]) else None;
    }
  }

  // ---------------------------------------------------------------- the history specification

  predicate Claims(e: Event, name: string) {
    e.Upsert? && e.name == Some(name)
  }

  /** `uri` claimed `name` at event i, and since then nobody claimed it and nothing happened to `uri`. */
  ghost predicate HoldsSince(history: seq<Event>, name: string, uri: string, i: int) {
    && 0 <= i < |history|
    && history[i] == Upsert(uri, Some(name))
    && forall j :: i < j < |history| ==> history[j].uri != uri && !Claims(history[j], name)
  }

  ghost predicate Owns(history: seq<Event>, name: string, uri: string) {
    exists i :: HoldsSince(history, name, uri, i)
  }

  /** The last event about `uri` gave it `name`. */
  ghost predicate Declares(history: seq<Event>, uri: string, name: string) {
    exists i :: 0 <= i < |history| && history[i] == Upsert(uri, Some(name))
      && forall j :: i < j < |history| ==> history[j].uri != uri
  }

  function Run(history: seq<Event>): Index {
    if history == [] then Index(map[], map[]) else Apply(Run(history[..|history| - 1]), history[|history| - 1])
  }

  lemma OwnsSnoc(history: seq<Event>, e: Event, name: string, uri: string)
    ensures Owns(history + [e], name, uri) <==>
            e == Upsert(uri, Some(name)) || (e.uri != uri && !Claims(e, name) && Owns(history, name, uri))
  {
    var more := history + [e];
    if i :| HoldsSince(more, name, uri, i) {
      if i < |history| {
        assert more[|history|] == e;
        assert HoldsSince(history, name, uri, i) by {
          assert forall j :: 0 <= j < |history| ==> more[j] == history[j];
        }
      }
    }
    if e == Upsert(uri, Some(name)) {
      assert HoldsSince(more, name, uri, |history|);
    } else if e.uri != uri && !Claims(e, name) && Owns(history, name, uri) {
      var i :| HoldsSince(history, name, uri, i);
      assert HoldsSince(more, name, uri, i);
    }
  }

  lemma DeclaresSnoc(history: seq<Event>, e: Event, uri: string, name: string)
    ensures Declares(history + [e], uri, name) <==>
            e == Upsert(uri, Some(name)) || (e.uri != uri && Declares(history, uri, name))
  {
    var more := history + [e];
    assert more[|history|] == e;
    assert forall j :: 0 <= j < |history| ==> more[j] == history[j];
    if e.uri != uri && Declares(history, uri, name) {
      var i :| 0 <= i < |history| && history[i] == Upsert(uri, Some(name)) && forall j :: i < j < |history| ==>
        history[j].uri != uri;
      assert more[i] == Upsert(uri, Some(name));
    }
  }

  /** Every entry of the name map is backed by the uri map. */
  ghost predicate Agree(ix: Index) {
    forall n :: n in ix.byName ==> ix.byName[n] in ix.byUri && ix.byUri[ix.byName[n]] == n
  }

  lemma ApplyAgrees(ix: Index, e: Event)
    requires Agree(ix)
    ensures Agree(Apply(ix, e))
    ensures forall n, u :: Lookup(Apply(ix, e), n) == Some(u) <==>
              e == Upsert(u, Some(n)) || (e.uri != u && !Claims(e, n) && Lookup(ix, n) == Some(u))
    ensures forall n, u :: NameOf(Apply(ix, e), u) == Some(n) <==>
              e == Upsert(u, Some(n)) || (e.uri != u && NameOf(ix, u) == Some(n))
  {
  }

  /** Over every history the maps agree with each other; a lookup finds exactly the last claimant
      that is still in place; and each uri is filed under the name it last declared. */
  lemma {:induction false} HistoryDetermines(history: seq<Event>, name: string, uri: string)
    ensures Agree(Run(history))
    ensures Lookup(Run(history), name) == Some(uri) <==> Owns(history, name, uri)
    ensures NameOf(Run(history), uri) == Some(name) <==> Declares(history, uri, name)
  {
    if history != [] {
      var front, e := history[..|history| - 1], history[|history| - 1];
      HistoryDetermines(front, name, uri);
      ApplyAgrees(Run(front), e);
      assert history == front + [e];
      OwnsSnoc(front, e, name, uri);
      DeclaresSnoc(front, e, uri, name);
    }
  }

  /** A uri owns at most one name, and a name has at most one owner. */
  lemma OwnershipIsOneToOne(history: seq<Event>, n: string, m: string, u: string, v: string)
    ensures Owns(history, n, u) && Owns(history, m, u) ==> n == m
    ensures Owns(history, n, u) && Owns(history, n, v) ==> u == v
  {
    HistoryDetermines(history, n, u);
    HistoryDetermines(history, m, u);
    HistoryDetermines(history, n, v);
  }
}
