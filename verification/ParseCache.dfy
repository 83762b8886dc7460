/** On-demand parsing of model files with a cache keyed by path and modification time, while other
    threads parse, refresh, and write files. Parsing is an arbitrary function of text and format. */
module ParseCache {
  import opened Common

  datatype Format = Json | Yaml

  datatype CachedTree<T> = CachedTree(mtime: int, text: string, tree: T, format: Format)

  type Parser<!T> = (string, Format) -> Option<T>

  type Tables = map<string, string>

  function Hit<T>(cache: map<string, CachedTree<T>>, path: string, mtime: int, format: Format): Option<CachedTree<T>> {
    if path in cache && cache[path].mtime == mtime && cache[path].format == format then Some(cache[path]) else None
  }

  /** The locked sections of the source, and a call nobody interrupts. */
  class WorkspaceTables<T> {
    var byName: Tables
    var treeCache: map<string, CachedTree<T>>
    var generation: nat

    constructor ()
      ensures byName == map[] && treeCache == map[] && generation == 0
    {
      byName, treeCache, generation := map[], map[], 0;
    }

    /** First half of `refresh`: replace the table set and forget every tree. */
    method Install(tables: Tables)
      modifies this`byName, this`treeCache
      ensures byName == tables && treeCache == map[]
    {
      byName, treeCache := tables, map[];
    }

    /** Second half of `refresh`, outside the lock. */
    method Bump()
      modifies this`generation
      ensures generation == old(generation) + 1
    {
      generation := generation + 1;
    }

    method Look(path: string, mtime: int, format: Format) returns (hit: Option<CachedTree<T>>)
      ensures hit == Hit(treeCache, path, mtime, format)
    {
      hit := None;
      if path in treeCache {
        var entry := treeCache[path];
        if entry.mtime == mtime && entry.format == format {
          hit := Some(entry);
        }
      }
    }

    method Store(path: string, entry: CachedTree<T>)
      modifies this`treeCache
      ensures treeCache == old(treeCache)[path := entry]
    {
      treeCache := treeCache[path := entry];
    }

    /** `cached_parse` with the file system's two answers given: `mtime` for the stat, `content` for
        the read. Nothing is stored unless the file was read and parsed. */
    method CachedParse(path: string, format: Format, mtime: Option<int>, content: Option<string>, parse: Parser<T>)
      returns (r: Option<(string, T)>)
      modifies this`treeCache
      ensures mtime.None? ==> r.None? && treeCache == old(treeCache)
      ensures mtime.Some? ==>
                match Hit(old(treeCache), path, mtime.value, format)
                case Some(e) => r == Some((e.text, e.tree)) && treeCache == old(treeCache)
                case None =>
                  if content.Some? && parse(content.value, format).Some? then
                    var tree := parse(content.value, format).value;
                    && r == Some((content.value, tree))
                    && treeCache == old(treeCache)[path := CachedTree(mtime.value, content.value, tree, format)]
                  else r.None? && treeCache == old(treeCache)
    {
      if mtime.None? {
        return None;
      }
      var hit := Look(path, mtime.value, format);
      if hit.Some? {
        return Some((hit.value.text, hit.value.tree));
      }
      if content.None? {
        return None;
      }
      var tree := parse(content.value, format);
      if tree.None? {
        return None;
      }
      Store(path, CachedTree(mtime.value, content.value, tree.value, format));
      return Some((content.value, tree.value));
    }
  }

  // ---------------------------------------------------------------- interleaving

  datatype File = File(mtime: int, text: string)

  type Files = map<string, File>

  /** A `cached_parse` call between its atomic steps. `statAt`, `readAt` and `seenAt` name instants of
      the history; no step decides on them. */
  datatype Call<T> =
    | Idle
    | Statted(path: string, mtime: int, statAt: nat)
    | Missed(path: string, mtime: int, statAt: nat)
    | Loaded(path: string, mtime: int, statAt: nat, text: string, readAt: nat)
    | Done(path: string, statAt: nat, doneAt: nat, seenAt: nat, result: Option<(string, T)>)

  /** `hist[i]` is the file system at instant i, the last one being now. `readAt` is when a cached text
      was read, `writes` how many table sets were installed, `pending` how many refreshes have not bumped
      the generation yet. */
  datatype State<T> = State(
    hist: seq<Files>, cache: map<string, CachedTree<T>>, readAt: map<string, nat>,
    calls: seq<Call<T>>, writes: nat, pending: nat, generation: nat)

  datatype Event =
    | Write(path: string, mtime: int, text: string)
    | Delete(path: string)
    | Install
    | Bump
    | Stat(t: nat, path: string)
    | Look(t: nat)
    | Read(t: nat)
    | Store(t: nat)

  function Now<T>(s: State<T>): nat
    requires s.hist != []
  {
    |s.hist| - 1
  }

  function CurrentFiles<T>(s: State<T>): Files
    requires s.hist != []
  {
    s.hist[|s.hist| - 1]
  }

  /** The state after a thread's own step: the files stay, an instant passes. */
  function Moved<T>(s: State<T>, t: nat, c: Call<T>): State<T>
    requires s.hist != [] && t < |s.calls|
  {
    s.(calls := s.calls[t := c], hist := s.hist + [CurrentFiles(s)])
  }

  function CallStep<T>(parse: Parser<T>, formatOf: string -> Format, s: State<T>, e: Event): State<T>
    requires s.hist != [] && (e.Stat? || e.Look? || e.Read? || e.Store?) && e.t < |s.calls|
  {
    var c, now, files := s.calls[e.t], Now(s), CurrentFiles(s);
    match e
    case Stat(t, path) =>
      if !c.Idle? && !c.Done? then s
      else if path in files then Moved(s, t, Statted(path, files[path].mtime, now))
      else Moved(s, t, Done(path, now, now, now, None))
    case Look(t) =>
      if !c.Statted? then s else
      var hit := Hit(s.cache, c.path, c.mtime, formatOf(c.path));
      if hit.None? then Moved(s, t, Missed(c.path, c.mtime, c.statAt))
      else
        var read := if c.path in s.readAt then s.readAt[c.path] else now;
        Moved(s, t, Done(c.path, c.statAt, now, if read < c.statAt then c.statAt else read,
          Some((hit.value.text, hit.value.tree))))
    case Read(t) =>
      if !c.Missed? then s
      else if c.path in files then Moved(s, t, Loaded(c.path, c.mtime, c.statAt, files[c.path].text, now))
      else Moved(s, t, Done(c.path, c.statAt, now, now, None))
    case Store(t) =>
      if !c.Loaded? then s else
      var format := formatOf(c.path);
      match parse(c.text, format)
      case None => Moved(s, t, Done(c.path, c.statAt, now, c.readAt, None))
      case Some(tree) =>
        Moved(s, t, Done(c.path, c.statAt, now, c.readAt, Some((c.text, tree))))
        .(cache := s.cache[c.path := CachedTree(c.mtime, c.text, tree, format)], readAt := s.readAt[c.path := c.readAt])
  }

  /** Any event of any thread, of the refresher or of a writer, who may stamp a file with any time.
      Events that are not enabled change nothing. */
  function Step<T>(parse: Parser<T>, formatOf: string -> Format, s: State<T>, e: Event): State<T>
    requires s.hist != []
    ensures Step(parse, formatOf, s, e).hist != []
  {
    var files := CurrentFiles(s);
    match e
    case Write(path, mtime, text) => s.(hist := s.hist + [files[path := File(mtime, text)]])
    case Delete(path) => s.(hist := s.hist + [files - {path}])
    case Install => s.(hist := s.hist + [files], cache := map[], readAt := map[], writes := s.writes + 1,
      pending := s.pending + 1)
    case Bump =>
      if s.pending == 0 then s
      else s.(hist := s.hist + [files], generation := s.generation + 1, pending := s.pending - 1)
    case Stat(t, _) => if t < |s.calls| then CallStep(parse, formatOf, s, e) else s
    case Look(t) => if t < |s.calls| then CallStep(parse, formatOf, s, e) else s
    case Read(t) => if t < |s.calls| then CallStep(parse, formatOf, s, e) else s
    case Store(t) => if t < |s.calls| then CallStep(parse, formatOf, s, e) else s
  }

  function Run<T>(parse: Parser<T>, formatOf: string -> Format, s: State<T>, events: seq<Event>): (r: State<T>)
    requires s.hist != []
    ensures r.hist != []
    decreases |events|
  {
    if events == [] then s else Run(parse, formatOf, Step(parse, formatOf, s, events[0]), events[1..])
  }

  // ---------------------------------------------------------------- invariant

  /** Modification times never go back, and one time means one content. */
  ghost predicate Monotone(hist: seq<Files>) {
    forall i, j, p :: 0 <= i <= j < |hist| && p in hist[i] && p in hist[j] ==>
      && hist[i][p].mtime <= hist[j][p].mtime
      && (hist[i][p].mtime == hist[j][p].mtime ==> hist[i][p] == hist[j][p])
  }

  /** If `p` shows one modification time at `i` and `j`, a text it had in between that parses is the
      text it has at `j`. */
  predicate TellsAt<T>(parse: Parser<T>, formatOf: string -> Format, hist: seq<Files>, p: string, i: nat, k: nat,
      j: nat) {
    i <= k <= j < |hist| && p in hist[i] && p in hist[k] && p in hist[j] && hist[i][p].mtime == hist[j][p].mtime ==>
      parse(hist[k][p].text, formatOf(p)).None? || hist[k][p].text == hist[j][p].text
  }

  /** A file's modification time tells what it holds, as far as the parser can see. */
  ghost predicate StampsTell<T>(parse: Parser<T>, formatOf: string -> Format, hist: seq<Files>) {
    forall p, i, k, j :: TellsAt(parse, formatOf, hist, p, i, k, j)
  }

  /** Writers that move modification times forward keep them telling. */
  lemma ForwardTells<T>(parse: Parser<T>, formatOf: string -> Format, hist: seq<Files>)
    requires Monotone(hist)
    ensures StampsTell(parse, formatOf, hist)
  {
    forall p, i: nat, k: nat, j: nat ensures TellsAt(parse, formatOf, hist, p, i, k, j) {
      if i <= k <= j < |hist| && p in hist[i] && p in hist[k] && p in hist[j] && hist[i][p].mtime == hist[j][p].mtime {
        assert hist[i][p].mtime <= hist[k][p].mtime <= hist[j][p].mtime;
        assert hist[k][p] == hist[j][p];
      }
    }
  }

  lemma ToldBefore<T>(parse: Parser<T>, formatOf: string -> Format, hist: seq<Files>, files: Files)
    requires StampsTell(parse, formatOf, hist + [files])
    ensures StampsTell(parse, formatOf, hist)
  {
    forall p, i: nat, k: nat, j: nat ensures TellsAt(parse, formatOf, hist, p, i, k, j) {
      assert TellsAt(parse, formatOf, hist + [files], p, i, k, j);
    }
  }

  predicate HadText(hist: seq<Files>, i: nat, path: string, text: string) {
    i < |hist| && path in hist[i] && hist[i][path].text == text
  }

  predicate HadTime(hist: seq<Files>, i: nat, path: string, mtime: int) {
    i < |hist| && path in hist[i] && hist[i][path].mtime == mtime
  }

  /** The text was on disk at `readAt`, and the file carried the stamp it is filed under before that. */
  ghost predicate EntryOk<T>(parse: Parser<T>, hist: seq<Files>, path: string, entry: CachedTree<T>, readAt: nat) {
    && HadText(hist, readAt, path, entry.text)
    && (exists i: nat :: i <= readAt && HadTime(hist, i, path, entry.mtime))
    && parse(entry.text, entry.format) == Some(entry.tree)
  }

  ghost predicate CacheOk<T>(parse: Parser<T>, s: State<T>) {
    forall p :: p in s.cache ==> p in s.readAt && EntryOk(parse, s.hist, p, s.cache[p], s.readAt[p])
  }

  /** What a finished call may report: a text that was on disk at an instant of the call together
      with its parse, or nothing because the file was missing or unparsable at such an instant. */
  ghost predicate Justified<T>(parse: Parser<T>, formatOf: string -> Format, hist: seq<Files>, c: Call<T>)
    requires c.Done?
  {
    && c.statAt <= c.seenAt <= c.doneAt < |hist|
    && match c.result
       case Some(r) => HadText(hist, c.seenAt, c.path, r.0) && parse(r.0, formatOf(c.path)) == Some(r.1)
       case None => c.path in hist[c.seenAt] ==> parse(hist[c.seenAt][c.path].text, formatOf(c.path)).None?
  }

  ghost predicate CallOk<T>(parse: Parser<T>, formatOf: string -> Format, hist: seq<Files>, c: Call<T>) {
    match c
    case Idle => true
    case Statted(p, m, at) => HadTime(hist, at, p, m)
    case Missed(p, m, at) => HadTime(hist, at, p, m)
    case Loaded(p, m, at, text, read) => HadTime(hist, at, p, m) && at <= read && HadText(hist, read, p, text)
    case Done(_, _, _, _, _) => StampsTell(parse, formatOf, hist) ==> Justified(parse, formatOf, hist, c)
  }

  ghost predicate CallsOk<T>(parse: Parser<T>, formatOf: string -> Format, hist: seq<Files>, calls: seq<Call<T>>) {
    forall t :: 0 <= t < |calls| ==> CallOk(parse, formatOf, hist, calls[t])
  }

  ghost predicate Inv<T>(parse: Parser<T>, formatOf: string -> Format, s: State<T>) {
    && s.hist != []
    && CacheOk(parse, s)
    && CallsOk(parse, formatOf, s.hist, s.calls)
    && s.generation + s.pending == s.writes
  }

  lemma CallStays<T>(parse: Parser<T>, formatOf: string -> Format, hist: seq<Files>, files: Files, c: Call<T>)
    requires CallOk(parse, formatOf, hist, c)
    ensures CallOk(parse, formatOf, hist + [files], c)
  {
    if c.Done? && StampsTell(parse, formatOf, hist + [files]) {
      ToldBefore(parse, formatOf, hist, files);
    }
  }

  lemma EntryStays<T>(parse: Parser<T>, hist: seq<Files>, files: Files, path: string, entry: CachedTree<T>, readAt: nat)
    requires EntryOk(parse, hist, path, entry, readAt)
    ensures EntryOk(parse, hist + [files], path, entry, readAt)
  {
    var i: nat :| i <= readAt && HadTime(hist, i, path, entry.mtime);
    assert HadTime(hist + [files], i, path, entry.mtime);
  }

  lemma HistoryGrows<T>(parse: Parser<T>, formatOf: string -> Format, s: State<T>, files: Files)
    requires CacheOk(parse, s) && CallsOk(parse, formatOf, s.hist, s.calls)
    ensures CacheOk(parse, s.(hist := s.hist + [files]))
    ensures CallsOk(parse, formatOf, s.hist + [files], s.calls)
  {
    forall p | p in s.cache ensures EntryOk(parse, s.hist + [files], p, s.cache[p], s.readAt[p]) {
      EntryStays(parse, s.hist, files, p, s.cache[p], s.readAt[p]);
    }
    forall t | 0 <= t < |s.calls| ensures CallOk(parse, formatOf, s.hist + [files], s.calls[t]) {
      CallStays(parse, formatOf, s.hist, files, s.calls[t]);
    }
  }

  /** The heart of it: a hit is justified. Either the cached text was read before this call took its
      stamp, and then the same stamp stands for the same text; or it was read after this call began. */
  lemma HitJustified<T>(parse: Parser<T>, formatOf: string -> Format, s: State<T>, c: Call<T>)
    requires Inv(parse, formatOf, s) && c.Statted? && CallOk(parse, formatOf, s.hist, c)
    requires Hit(s.cache, c.path, c.mtime, formatOf(c.path)).Some? && StampsTell(parse, formatOf, s.hist)
    ensures
      var entry, read := s.cache[c.path], s.readAt[c.path];
      var seen := if read < c.statAt then c.statAt else read;
      && c.path in s.readAt && read < |s.hist|
      && Justified(parse, formatOf, s.hist, Done(c.path, c.statAt, Now(s), seen, Some((entry.text, entry.tree))))
  {
    var entry, read := s.cache[c.path], s.readAt[c.path];
    assert EntryOk(parse, s.hist, c.path, entry, read);
    if read < c.statAt {
      var i: nat :| i <= read && HadTime(s.hist, i, c.path, entry.mtime);
      assert TellsAt(parse, formatOf, s.hist, c.path, i, read, c.statAt);
    }
  }

  lemma WriterInv<T>(parse: Parser<T>, formatOf: string -> Format, s: State<T>, after: Files)
    requires Inv(parse, formatOf, s)
    ensures Inv(parse, formatOf, s.(hist := s.hist + [after]))
  {
    HistoryGrows(parse, formatOf, s, after);
  }

  lemma CallReplaced<T>(parse: Parser<T>, formatOf: string -> Format, s: State<T>, t: nat, c: Call<T>)
    requires Inv(parse, formatOf, s) && t < |s.calls|
    requires CallOk(parse, formatOf, s.hist, c)
    ensures Inv(parse, formatOf, s.(calls := s.calls[t := c]))
  {
    var calls := s.calls[t := c];
    assert forall i :: 0 <= i < |calls| ==> calls[i] == if i == t then c else s.calls[i];
  }

  lemma MovedInv<T>(parse: Parser<T>, formatOf: string -> Format, s: State<T>, t: nat, c: Call<T>)
    requires Inv(parse, formatOf, s) && t < |s.calls|
    requires CallOk(parse, formatOf, s.hist, c)
    ensures Inv(parse, formatOf, Moved(s, t, c))
  {
    var files := CurrentFiles(s);
    WriterInv(parse, formatOf, s, files);
    CallStays(parse, formatOf, s.hist, files, c);
    CallReplaced(parse, formatOf, s.(hist := s.hist + [files]), t, c);
  }

  lemma StoreInv<T>(parse: Parser<T>, formatOf: string -> Format, s: State<T>, path: string, entry: CachedTree<T>,
      readAt: nat)
    requires Inv(parse, formatOf, s) && EntryOk(parse, s.hist, path, entry, readAt)
    ensures Inv(parse, formatOf, s.(cache := s.cache[path := entry], readAt := s.readAt[path := readAt]))
  {
  }

  lemma CallStepInv<T>(parse: Parser<T>, formatOf: string -> Format, s: State<T>, e: Event)
    requires Inv(parse, formatOf, s)
    requires (e.Stat? || e.Look? || e.Read? || e.Store?) && e.t < |s.calls|
    ensures Inv(parse, formatOf, CallStep(parse, formatOf, s, e))
  {
    var c, now, files := s.calls[e.t], Now(s), CurrentFiles(s);
    assert CallOk(parse, formatOf, s.hist, c);
    if CallStep(parse, formatOf, s, e) != s {
      match e
      case Stat(t, path) =>
        MovedInv(parse, formatOf, s, t,
          if path in files then Statted(path, files[path].mtime, now) else Done(path, now, now, now, None));
      case Look(t) => LookStepInv(parse, formatOf, s, t);
      case Read(t) =>
        MovedInv(parse, formatOf, s, t,
                 if c.path in files then Loaded(c.path, c.mtime, c.statAt, files[c.path].text, now)
                   else Done(c.path, c.statAt, now, now, None));
      case Store(t) =>
        StoreStepInv(parse, formatOf, s, t);
    }
  }

  lemma LookStepInv<T>(parse: Parser<T>, formatOf: string -> Format, s: State<T>, t: nat)
    requires Inv(parse, formatOf, s) && t < |s.calls| && s.calls[t].Statted?
    ensures Inv(parse, formatOf, CallStep(parse, formatOf, s, Event.Look(t)))
  {
    var c, now := s.calls[t], Now(s);
    assert CallOk(parse, formatOf, s.hist, c);
    var hit := Hit(s.cache, c.path, c.mtime, formatOf(c.path));
    if hit.Some? {
      if StampsTell(parse, formatOf, s.hist) {
        HitJustified(parse, formatOf, s, c);
      }
      assert c.path in s.cache;
      var read := s.readAt[c.path];
      MovedInv(parse, formatOf, s, t,
        Done(c.path, c.statAt, now, if read < c.statAt then c.statAt else read,
          Some((hit.value.text, hit.value.tree))));
    } else {
      MovedInv(parse, formatOf, s, t, Missed(c.path, c.mtime, c.statAt));
    }
  }

  lemma StoreStepInv<T>(parse: Parser<T>, formatOf: string -> Format, s: State<T>, t: nat)
    requires Inv(parse, formatOf, s) && t < |s.calls| && s.calls[t].Loaded?
    ensures Inv(parse, formatOf, CallStep(parse, formatOf, s, Event.Store(t)))
  {
    var c, now := s.calls[t], Now(s);
    assert CallOk(parse, formatOf, s.hist, c);
    var tree := parse(c.text, formatOf(c.path));
    if tree.None? {
      MovedInv(parse, formatOf, s, t, Done(c.path, c.statAt, now, c.readAt, None));
    } else {
      var moved := Moved(s, t, Done(c.path, c.statAt, now, c.readAt, Some((c.text, tree.value))));
      MovedInv(parse, formatOf, s, t, moved.calls[t]);
      var entry := CachedTree(c.mtime, c.text, tree.value, formatOf(c.path));
      assert HadTime(moved.hist, c.statAt, c.path, c.mtime);
      assert EntryOk(parse, moved.hist, c.path, entry, c.readAt);
      StoreInv(parse, formatOf, moved, c.path, entry, c.readAt);
    }
  }

  lemma StepInv<T>(parse: Parser<T>, formatOf: string -> Format, s: State<T>, e: Event)
    requires Inv(parse, formatOf, s)
    ensures Inv(parse, formatOf, Step(parse, formatOf, s, e))
    ensures s.writes <= Step(parse, formatOf, s, e).writes
  {
    if e.Stat? || e.Look? || e.Read? || e.Store? {
      CallEventInv(parse, formatOf, s, e);
    } else {
      WorldEventInv(parse, formatOf, s, e);
    }
  }

  lemma CallEventInv<T>(parse: Parser<T>, formatOf: string -> Format, s: State<T>, e: Event)
    requires Inv(parse, formatOf, s) && (e.Stat? || e.Look? || e.Read? || e.Store?)
    ensures Inv(parse, formatOf, Step(parse, formatOf, s, e))
    ensures s.writes <= Step(parse, formatOf, s, e).writes
  {
    CallEventStep(parse, formatOf, s, e);
    if e.t < |s.calls| {
      CallStepInv(parse, formatOf, s, e);
    }
  }

  lemma CallEventStep<T>(parse: Parser<T>, formatOf: string -> Format, s: State<T>, e: Event)
    requires s.hist != [] && (e.Stat? || e.Look? || e.Read? || e.Store?)
    ensures Step(parse, formatOf, s, e) == if e.t < |s.calls| then CallStep(parse, formatOf, s, e) else s
    ensures Step(parse, formatOf, s, e).writes == s.writes
  {
  }

  lemma WorldEventInv<T>(parse: Parser<T>, formatOf: string -> Format, s: State<T>, e: Event)
    requires Inv(parse, formatOf, s) && (e.Write? || e.Delete? || e.Install? || e.Bump?)
    ensures Inv(parse, formatOf, Step(parse, formatOf, s, e))
    ensures s.writes <= Step(parse, formatOf, s, e).writes
  {
    match e
    case Write(path, mtime, text) => WriterInv(parse, formatOf, s, CurrentFiles(s)[path := File(mtime, text)]);
    case Delete(path) => WriterInv(parse, formatOf, s, CurrentFiles(s) - {path});
    case Install => WriterInv(parse, formatOf, s, CurrentFiles(s));
    case Bump => WriterInv(parse, formatOf, s, CurrentFiles(s));
  }

  ghost predicate Initial<T>(s: State<T>) {
    && |s.hist| == 1 && s.cache == map[] && s.writes == s.pending == s.generation == 0
    && forall t :: 0 <= t < |s.calls| ==> s.calls[t].Idle?
  }

  lemma {:induction false} RunInv<T>(parse: Parser<T>, formatOf: string -> Format, s: State<T>, events: seq<Event>)
    requires Inv(parse, formatOf, s)
    ensures Inv(parse, formatOf, Run(parse, formatOf, s, events))
    ensures s.writes <= Run(parse, formatOf, s, events).writes
    decreases |events|
  {
    if events != [] {
      StepInv(parse, formatOf, s, events[0]);
      RunInv(parse, formatOf, Step(parse, formatOf, s, events[0]), events[1..]);
    }
  }

  /** A finished call reports what a plain read and parse would have reported at some instant between its
      start and its return. */
  ghost predicate Explained<T>(parse: Parser<T>, formatOf: string -> Format, hist: seq<Files>, c: Call<T>)
    requires c.Done?
  {
    exists i :: c.statAt <= i <= c.doneAt < |hist|
      && c.result == if c.path !in hist[i] then None
                     else match parse(hist[i][c.path].text, formatOf(c.path))
                          case None => None
                          case Some(tree) => Some((hist[i][c.path].text, tree))
  }

  /** `cached_parse` is linearizable in every interleaving in which modification times tell what a file
      holds, as they do when writers move them forward. */
  lemma Linearizable<T>(parse: Parser<T>, formatOf: string -> Format, s: State<T>, events: seq<Event>, t: nat)
    requires Initial(s) && t < |s.calls|
    ensures
      var end := Run(parse, formatOf, s, events);
      t < |end.calls| && end.calls[t].Done? && StampsTell(parse, formatOf, end.hist) ==>
        Explained(parse, formatOf, end.hist, end.calls[t])
    ensures Monotone(Run(parse, formatOf, s, events).hist) ==>
      StampsTell(parse, formatOf, Run(parse, formatOf, s, events).hist)
  {
    RunInv(parse, formatOf, s, events);
    var end := Run(parse, formatOf, s, events);
    if t < |end.calls| && end.calls[t].Done? && StampsTell(parse, formatOf, end.hist) {
      assert CallOk(parse, formatOf, end.hist, end.calls[t]);
      var i := end.calls[t].seenAt;
      assert i < |end.hist|;
    }
    if Monotone(end.hist) {
      ForwardTells(parse, formatOf, end.hist);
    }
  }

  /** Whoever reads generation g and then the tables sees at least the g-th installed set. */
  lemma GenerationNeverAhead<T>(parse: Parser<T>, formatOf: string -> Format, s: State<T>, before: seq<Event>,
      after: seq<Event>)
    requires Initial(s)
    ensures Run(parse, formatOf, s, before).generation <= Run(parse, formatOf, Run(parse, formatOf, s, before),
      after).writes
  {
    RunInv(parse, formatOf, s, before);
    RunInv(parse, formatOf, Run(parse, formatOf, s, before), after);
  }
}
