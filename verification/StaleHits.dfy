/** Exactly which writers keep `cached_parse` linearizable, and the stale hit that the others allow. */
module StaleHits {
  import opened Common
  import opened ParseCache

  predicate IsWriter(e: Event) {
    e.Write? || e.Delete?
  }

  predicate AllWriters(events: seq<Event>) {
    forall i :: 0 <= i < |events| ==> IsWriter(events[i])
  }

  function Written(files: Files, e: Event): Files
    requires IsWriter(e)
  {
    match e
    case Write(path, mtime, text) => files[path := File(mtime, text)]
    case Delete(path) => files - {path}
  }

  /** The file system before, between and after the writers. */
  function Worlds(files: Files, writers: seq<Event>): (r: seq<Files>)
    requires AllWriters(writers)
    ensures |r| == |writers| + 1
  {
    if writers == [] then [files] else
    var n := |writers| - 1;
    var before := Worlds(files, writers[..n]);
    before + [Written(before[n], writers[n])]
  }

  function WritersOf(events: seq<Event>): (r: seq<Event>)
    ensures AllWriters(r)
  {
    if events == [] then [] else (if IsWriter(events[0]) then [events[0]] else []) + WritersOf(events[1..])
  }

  /** Every finished call of every interleaving of calls and refreshes with these writers is explained. */
  ghost predicate AlwaysExplained<T(!new)>(parse: Parser<T>, formatOf: string -> Format, s: State<T>,
      writers: seq<Event>)
    requires s.hist != []
  {
    forall events :: WritersOf(events) == writers ==> RunExplained(parse, formatOf, s, events)
  }

  ghost predicate RunExplained<T>(parse: Parser<T>, formatOf: string -> Format, s: State<T>, events: seq<Event>)
    requires s.hist != []
  {
    var end := Run(parse, formatOf, s, events);
    forall t :: 0 <= t < |end.calls| && end.calls[t].Done? ==> Explained(parse, formatOf, end.hist, end.calls[t])
  }

  // ---------------------------------------------------------------- the history of a run stutters

  /** `hist` goes through `worlds`, staying in some of them for a while; `at` says where it is. */
  ghost predicate Stutters(hist: seq<Files>, worlds: seq<Files>, at: seq<nat>) {
    && |at| == |hist| > 0 && at[|at| - 1] == |worlds| - 1
    && (forall i :: 0 <= i < |hist| ==> at[i] < |worlds| && hist[i] == worlds[at[i]])
    && (forall i, j :: 0 <= i <= j < |at| ==> at[i] <= at[j])
  }

  lemma StutterStays(hist: seq<Files>, worlds: seq<Files>, at: seq<nat>)
    requires Stutters(hist, worlds, at)
    ensures Stutters(hist + [hist[|hist| - 1]], worlds, at + [at[|at| - 1]])
  {
  }

  lemma StutterMoves(hist: seq<Files>, worlds: seq<Files>, at: seq<nat>, files: Files)
    requires Stutters(hist, worlds, at)
    ensures Stutters(hist + [files], worlds + [files], at + [|worlds|])
  {
  }

  lemma TellsThroughStutter<T>(parse: Parser<T>, formatOf: string -> Format, hist: seq<Files>, worlds: seq<Files>,
      at: seq<nat>)
    requires Stutters(hist, worlds, at) && StampsTell(parse, formatOf, worlds)
    ensures StampsTell(parse, formatOf, hist)
  {
    forall p, i: nat, k: nat, j: nat ensures TellsAt(parse, formatOf, hist, p, i, k, j) {
      if i <= k <= j < |hist| {
        assert TellsAt(parse, formatOf, worlds, p, at[i], at[k], at[j]);
      }
    }
  }

  lemma WorldsSnoc(files: Files, writers: seq<Event>, e: Event)
    requires AllWriters(writers) && IsWriter(e)
    ensures Worlds(files, writers + [e]) == Worlds(files, writers) + [Written(Worlds(files, writers)[|writers|], e)]
  {
    assert (writers + [e])[..|writers|] == writers;
  }

  lemma OtherStep<T>(parse: Parser<T>, formatOf: string -> Format, s: State<T>, e: Event)
    requires s.hist != [] && !IsWriter(e)
    ensures Step(parse, formatOf, s, e).hist == s.hist || Step(parse, formatOf, s, e).hist == s.hist + [CurrentFiles(s)]
  {
  }

  lemma WriterStep<T>(parse: Parser<T>, formatOf: string -> Format, s: State<T>, e: Event)
    requires s.hist != [] && IsWriter(e)
    ensures Step(parse, formatOf, s, e) == s.(hist := s.hist + [Written(CurrentFiles(s), e)])
  {
  }

  lemma WritersFirst(writers: seq<Event>, events: seq<Event>)
    requires events != []
    ensures writers + WritersOf(events) ==
      (if IsWriter(events[0]) then writers + [events[0]] else writers) + WritersOf(events[1..])
  {
  }

  lemma StepStutters<T>(parse: Parser<T>, formatOf: string -> Format, s: State<T>, e: Event, files: Files,
      writers: seq<Event>, at: seq<nat>)
    returns (more: seq<Event>, next: seq<nat>)
    requires AllWriters(writers)
    requires s.hist != [] && Stutters(s.hist, Worlds(files, writers), at)
    ensures more == if IsWriter(e) then writers + [e] else writers
    ensures AllWriters(more)
    ensures Step(parse, formatOf, s, e).hist != []
    ensures Stutters(Step(parse, formatOf, s, e).hist, Worlds(files, more), next)
  {
    if IsWriter(e) {
      WriterStep(parse, formatOf, s, e);
      WorldsSnoc(files, writers, e);
      StutterMoves(s.hist, Worlds(files, writers), at, Written(CurrentFiles(s), e));
      more, next := writers + [e], at + [|writers| + 1];
    } else {
      OtherStep(parse, formatOf, s, e);
      StutterStays(s.hist, Worlds(files, writers), at);
      more, next := writers, if Step(parse, formatOf, s, e).hist == s.hist then at else at + [at[|at| - 1]];
    }
  }

  /** Running `events` from a state that has seen `writers`. */
  lemma {:induction false} RunStutters<T>(parse: Parser<T>, formatOf: string -> Format, s: State<T>, events: seq<Event>,
      files: Files, writers: seq<Event>, at: seq<nat>)
    returns (more: seq<nat>)
    requires AllWriters(writers)
    requires s.hist != [] && Stutters(s.hist, Worlds(files, writers), at)
    ensures
      var all := writers + WritersOf(events);
      AllWriters(all)
        && Stutters(Run(parse, formatOf, s, events).hist, Worlds(files, all), more)
    decreases |events|
  {
    if events == [] {
      assert writers + [] == writers;
      more := at;
    } else {
      WritersFirst(writers, events);
      var seen, upTo := StepStutters(parse, formatOf, s, events[0], files, writers, at);
      more := RunStutters(parse, formatOf, Step(parse, formatOf, s, events[0]), events[1..], files, seen, upTo);
    }
  }

  lemma TellingIsExplained<T>(parse: Parser<T>, formatOf: string -> Format, s: State<T>, writers: seq<Event>,
      events: seq<Event>)
    requires Initial(s) && AllWriters(writers) && WritersOf(events) == writers
    requires StampsTell(parse, formatOf, Worlds(s.hist[0], writers))
    ensures RunExplained(parse, formatOf, s, events)
  {
    assert s.hist == [s.hist[0]] && Worlds(s.hist[0], []) == [s.hist[0]];
    var at := RunStutters(parse, formatOf, s, events, s.hist[0], [], [0]);
    assert [] + writers == writers;
    var end := Run(parse, formatOf, s, events);
    TellsThroughStutter(parse, formatOf, end.hist, Worlds(s.hist[0], writers), at);
    RunCalls(parse, formatOf, s, events);
    forall t | 0 <= t < |end.calls| && end.calls[t].Done? ensures Explained(parse, formatOf, end.hist, end.calls[t]) {
      Linearizable(parse, formatOf, s, events, t);
    }
  }

  lemma {:induction false} RunCalls<T>(parse: Parser<T>, formatOf: string -> Format, s: State<T>, events: seq<Event>)
    requires s.hist != []
    ensures |Run(parse, formatOf, s, events).calls| == |s.calls|
    decreases |events|
  {
    if events != [] {
      RunCalls(parse, formatOf, Step(parse, formatOf, s, events[0]), events[1..]);
    }
  }

  // ---------------------------------------------------------------- the stale hit

  lemma {:induction false} RunConcat<T>(parse: Parser<T>, formatOf: string -> Format, s: State<T>, xs: seq<Event>,
      ys: seq<Event>)
    requires s.hist != []
    ensures Run(parse, formatOf, s, xs + ys) == Run(parse, formatOf, Run(parse, formatOf, s, xs), ys)
    decreases |xs|
  {
    if xs == [] {
      assert xs + ys == ys;
    } else {
      assert (xs + ys)[1..] == xs[1..] + ys;
      RunConcat(parse, formatOf, Step(parse, formatOf, s, xs[0]), xs[1..], ys);
    }
  }

  lemma {:induction false} WritersConcat(xs: seq<Event>, ys: seq<Event>)
    ensures WritersOf(xs + ys) == WritersOf(xs) + WritersOf(ys)
  {
    if xs == [] {
      assert xs + ys == ys;
    } else {
      assert (xs + ys)[1..] == xs[1..] + ys;
      WritersConcat(xs[1..], ys);
    }
  }

  lemma {:induction false} OnlyWriters(writers: seq<Event>)
    requires AllWriters(writers)
    ensures WritersOf(writers) == writers
  {
    if writers != [] {
      OnlyWriters(writers[1..]);
    }
  }

  /** `r` is `s` after some writers, the last of which left the files as `files`. */
  ghost predicate After<T>(s: State<T>, r: State<T>, files: Files) {
    r.hist != [] && |s.hist| <= |r.hist| && s.hist == r.hist[..|s.hist|] && CurrentFiles(r) == files
      && r == s.(hist := r.hist)
  }

  lemma {:induction false} RunWriters<T>(parse: Parser<T>, formatOf: string -> Format, s: State<T>, all: seq<Event>,
      lo: nat, hi: nat, files: Files)
    requires AllWriters(all) && lo <= hi <= |all|
    requires s.hist != [] && CurrentFiles(s) == Worlds(files, all)[lo]
    ensures After(s, Run(parse, formatOf, s, all[lo..hi]), Worlds(files, all)[hi])
    decreases hi - lo
  {
    if lo < hi {
      WorldAt(files, all, lo);
      var next := Step(parse, formatOf, s, all[lo]);
      WriterStep(parse, formatOf, s, all[lo]);
      assert all[lo..hi][0] == all[lo] && all[lo..hi][1..] == all[lo + 1..hi];
      RunWriters(parse, formatOf, next, all, lo + 1, hi, files);
    } else {
      assert all[lo..hi] == [];
    }
  }

  lemma {:induction false} WorldAt(files: Files, all: seq<Event>, i: nat)
    requires AllWriters(all) && i < |all|
    ensures Worlds(files, all)[i + 1] == Written(Worlds(files, all)[i], all[i])
  {
    var n := |all| - 1;
    if i < n {
      WorldAt(files, all[..n], i);
    }
  }

  /** A call takes the stamp of `p`. */
  lemma StatPhase<T>(parse: Parser<T>, formatOf: string -> Format, s: State<T>, p: string) returns (r: State<T>)
    requires s.hist != [] && s.calls != [] && (s.calls[0].Idle? || s.calls[0].Done?) && p in CurrentFiles(s)
    ensures r == Run(parse, formatOf, s, [Stat(0, p)])
    ensures r == s.(hist := s.hist + [CurrentFiles(s)],
      calls := s.calls[0 := Statted(p, CurrentFiles(s)[p].mtime, Now(s))])
  {
    r := Step(parse, formatOf, s, Stat(0, p));
    assert [Stat(0, p)][1..] == [];
  }

  ghost predicate HasStored<T>(parse: Parser<T>, formatOf: string -> Format, s: State<T>, p: string, m: int,
      r: State<T>)
    requires s.hist != [] && p in CurrentFiles(s) && parse(CurrentFiles(s)[p].text, formatOf(p)).Some?
  {
    var text, format := CurrentFiles(s)[p].text, formatOf(p);
    && r.hist != [] && CurrentFiles(r) == CurrentFiles(s) && |r.calls| == |s.calls| > 0 && r.calls[0].Done?
    && r.cache == map[p := CachedTree(m, text, parse(text, format).value, format)]
  }

  /** It misses, reads and stores. */
  lemma StorePhase<T>(parse: Parser<T>, formatOf: string -> Format, s: State<T>, p: string, m: int, at: nat)
    returns (r: State<T>)
    requires s.hist != [] && s.calls != [] && s.calls[0] == Statted(p, m, at) && s.cache == map[]
    requires p in CurrentFiles(s)
    requires parse(CurrentFiles(s)[p].text, formatOf(p)).Some?
    ensures r == Run(parse, formatOf, s, [Look(0), Read(0), Store(0)]) && HasStored(parse, formatOf, s, p, m, r)
  {
    var s1 := Step(parse, formatOf, s, Look(0));
    var s2 := Step(parse, formatOf, s1, Read(0));
    r := Step(parse, formatOf, s2, Store(0));
    assert [Look(0), Read(0), Store(0)][1..] == [Read(0), Store(0)] && [Read(0), Store(0)][1..] == [Store(0)]
      && [Store(0)][1..] == [];
    assert Run(parse, formatOf, s2, [Store(0)]) == r;
    assert Run(parse, formatOf, s1, [Read(0), Store(0)]) == r;
  }

  /** The second half: writers, the hit, the last writers. */
  function HitLater(writers: seq<Event>, p: string, k: nat, j: nat): seq<Event>
    requires k <= j <= |writers|
  {
    writers[k..j] + ([Stat(0, p), Look(0)] + writers[j..|writers|])
  }

  function StoreLater(writers: seq<Event>, p: string, i: nat, k: nat, j: nat): seq<Event>
    requires i <= k <= j <= |writers|
  {
    writers[i..k] + ([Look(0), Read(0), Store(0)] + HitLater(writers, p, k, j))
  }

  function Schedule(writers: seq<Event>, p: string, i: nat, k: nat, j: nat): seq<Event>
    requires i <= k <= j <= |writers|
  {
    writers[0..i] + ([Stat(0, p)] + StoreLater(writers, p, i, k, j))
  }

  /** Writers around a stretch without any. */
  lemma WritersAround(writers: seq<Event>, lo: nat, hi: nat, others: seq<Event>, rest: seq<Event>)
    requires AllWriters(writers) && lo <= hi <= |writers|
    requires (forall n :: 0 <= n < |others| ==> !IsWriter(others[n])) && WritersOf(rest) == writers[hi..]
    ensures WritersOf(writers[lo..hi] + (others + rest)) == writers[lo..]
  {
    var some := writers[lo..hi];
    OnlyWriters(some);
    AfterOthers(others, rest);
    WritersConcat(some, others + rest);
    TailJoins(writers, lo, hi);
  }

  lemma AfterOthers(others: seq<Event>, rest: seq<Event>)
    requires forall n :: 0 <= n < |others| ==> !IsWriter(others[n])
    ensures WritersOf(others + rest) == WritersOf(rest)
  {
    NoWriters(others);
    WritersConcat(others, rest);
    assert [] + WritersOf(rest) == WritersOf(rest);
  }

  lemma TailJoins(writers: seq<Event>, lo: nat, hi: nat)
    requires lo <= hi <= |writers|
    ensures writers[lo..hi] + writers[hi..] == writers[lo..]
  {
  }

  lemma ScheduleWriters(writers: seq<Event>, p: string, i: nat, k: nat, j: nat)
    requires AllWriters(writers) && i <= k <= j <= |writers|
    ensures WritersOf(Schedule(writers, p, i, k, j)) == writers
  {
    OnlyWriters(writers[j..]);
    assert writers[j..|writers|] == writers[j..] && writers[0..] == writers;
    WritersAround(writers, k, j, [Stat(0, p), Look(0)], writers[j..|writers|]);
    WritersAround(writers, i, k, [Look(0), Read(0), Store(0)], HitLater(writers, p, k, j));
    WritersAround(writers, 0, i, [Stat(0, p)], StoreLater(writers, p, i, k, j));
  }

  lemma {:induction false} NoWriters(events: seq<Event>)
    requires forall i :: 0 <= i < |events| ==> !IsWriter(events[i])
    ensures WritersOf(events) == []
  {
    if events != [] {
      NoWriters(events[1..]);
    }
  }

  /** A finished call that reports a text the file did not have between its start and its return. */
  lemma Unexplained<T>(parse: Parser<T>, formatOf: string -> Format, hist: seq<Files>, c: Call<T>, files: Files,
      text: string, tree: T)
    requires c.Done? && c.statAt + 1 == c.doneAt < |hist| && hist[c.statAt] == hist[c.doneAt] == files
    requires c.path in files && files[c.path].text != text && c.result == Some((text, tree))
    ensures !Explained(parse, formatOf, hist, c)
  {
  }

  /** Its first call has finished unexplained. */
  ghost predicate Caught<T>(parse: Parser<T>, formatOf: string -> Format, s: State<T>) {
    s.hist != [] && s.calls != [] && s.calls[0].Done? && s.calls[0].doneAt < |s.hist|
      && !Explained(parse, formatOf, s.hist, s.calls[0])
  }

  /** `p` is cached under the modification time it has, and with another text. */
  predicate StaleIn<T(==)>(formatOf: string -> Format, cache: map<string, CachedTree<T>>, files: Files, p: string) {
    && p in cache && p in files && cache[p].format == formatOf(p)
    && cache[p].mtime == files[p].mtime && cache[p].text != files[p].text
  }

  lemma RunTwo<T>(parse: Parser<T>, formatOf: string -> Format, s: State<T>, xs: seq<Event>, ys: seq<Event>,
      rest: seq<Event>)
    requires s.hist != []
    ensures Run(parse, formatOf, s, xs + (ys + rest)) ==
      Run(parse, formatOf, Run(parse, formatOf, Run(parse, formatOf, s, xs), ys), rest)
  {
    RunConcat(parse, formatOf, s, xs, ys + rest);
    RunConcat(parse, formatOf, Run(parse, formatOf, s, xs), ys, rest);
  }

  /** The text is cached under the stamp it had before. */
  lemma ScheduleStores<T>(parse: Parser<T>, formatOf: string -> Format, s: State<T>, writers: seq<Event>, p: string,
      i: nat, k: nat, j: nat)
    returns (r: State<T>)
    requires Initial(s) && s.calls != [] && AllWriters(writers)
    requires i <= k <= j <= |writers|
    requires !TellsAt(parse, formatOf, Worlds(s.hist[0], writers), p, i, k, j)
    ensures r.hist != [] && r.calls != [] && r.calls[0].Done? && CurrentFiles(r) == Worlds(s.hist[0], writers)[k]
    ensures StaleIn(formatOf, r.cache, Worlds(s.hist[0], writers)[j], p)
    ensures Run(parse, formatOf, s, Schedule(writers, p, i, k, j)) ==
      Run(parse, formatOf, r, HitLater(writers, p, k, j))
  {
    var worlds: seq<Files> := Worlds(s.hist[0], writers);
    FirstWorld(s.hist[0], writers);
    RunWriters(parse, formatOf, s, writers, 0, i, s.hist[0]);
    var s1 := Run(parse, formatOf, s, writers[0..i]);
    var s2 := StatPhase(parse, formatOf, s1, p);
    RunTwo(parse, formatOf, s, writers[0..i], [Stat(0, p)], StoreLater(writers, p, i, k, j));
    RunWriters(parse, formatOf, s2, writers, i, k, s.hist[0]);
    var s3 := Run(parse, formatOf, s2, writers[i..k]);
    r := StorePhase(parse, formatOf, s3, p, worlds[i][p].mtime, Now(s1));
    RunTwo(parse, formatOf, s2, writers[i..k], [Look(0), Read(0), Store(0)], HitLater(writers, p, k, j));
  }

  /** The schedule up to the hit. */
  lemma ScheduleHits<T>(parse: Parser<T>, formatOf: string -> Format, s: State<T>, writers: seq<Event>, p: string,
      i: nat, k: nat, j: nat)
    returns (r: State<T>)
    requires Initial(s) && s.calls != [] && AllWriters(writers)
    requires i <= k <= j <= |writers|
    requires !TellsAt(parse, formatOf, Worlds(s.hist[0], writers), p, i, k, j)
    ensures Caught(parse, formatOf, r) && CurrentFiles(r) == Worlds(s.hist[0], writers)[j]
    ensures Run(parse, formatOf, s, Schedule(writers, p, i, k, j)) == Run(parse, formatOf, r, writers[j..|writers|])
  {
    var s1 := ScheduleStores(parse, formatOf, s, writers, p, i, k, j);
    r := HitsFrom(parse, formatOf, s1, writers, s.hist[0], p, k, j);
  }

  lemma HitsFrom<T>(parse: Parser<T>, formatOf: string -> Format, s: State<T>, writers: seq<Event>, files: Files,
      p: string, k: nat, j: nat)
    returns (r: State<T>)
    requires AllWriters(writers) && k <= j <= |writers| && s.hist != [] && s.calls != [] && s.calls[0].Done?
    requires CurrentFiles(s) == Worlds(files, writers)[k] && StaleIn(formatOf, s.cache, Worlds(files, writers)[j], p)
    ensures Caught(parse, formatOf, r) && CurrentFiles(r) == Worlds(files, writers)[j]
    ensures Run(parse, formatOf, s, HitLater(writers, p, k, j)) == Run(parse, formatOf, r, writers[j..|writers|])
  {
    RunWriters(parse, formatOf, s, writers, k, j, files);
    var s2 := Run(parse, formatOf, s, writers[k..j]);
    r := StalePhase(parse, formatOf, s2, p);
    RunTwo(parse, formatOf, s, writers[k..j], [Stat(0, p), Look(0)], writers[j..|writers|]);
  }

  /** A later call takes the same stamp and hits. */
  lemma StalePhase<T>(parse: Parser<T>, formatOf: string -> Format, s: State<T>, p: string) returns (r: State<T>)
    requires s.hist != [] && s.calls != [] && s.calls[0].Done? && StaleIn(formatOf, s.cache, CurrentFiles(s), p)
    ensures r == Run(parse, formatOf, s, [Stat(0, p), Look(0)])
    ensures Caught(parse, formatOf, r) && CurrentFiles(r) == CurrentFiles(s)
  {
    var s1 := Step(parse, formatOf, s, Stat(0, p));
    r := Step(parse, formatOf, s1, Look(0));
    assert [Stat(0, p), Look(0)][1..] == [Look(0)] && [Look(0)][1..] == [];
    assert Run(parse, formatOf, s1, [Look(0)]) == r;
    Unexplained(parse, formatOf, r.hist, r.calls[0], CurrentFiles(s), s.cache[p].text, s.cache[p].tree);
  }

  lemma {:induction false} FirstWorld(files: Files, writers: seq<Event>)
    requires AllWriters(writers)
    ensures Worlds(files, writers)[0] == files
  {
    if writers != [] {
      FirstWorld(files, writers[..|writers| - 1]);
    }
  }

  lemma StaysUnexplained<T>(parse: Parser<T>, formatOf: string -> Format, hist: seq<Files>, more: seq<Files>,
      c: Call<T>)
    requires c.Done? && c.doneAt < |hist| <= |more| && hist == more[..|hist|] && !Explained(parse, formatOf, hist, c)
    ensures !Explained(parse, formatOf, more, c)
  {
  }

  /** A modification time that stands for two texts, one of them cached in between, makes a stale hit. */
  lemma ReusedStampGoesStale<T>(parse: Parser<T>, formatOf: string -> Format, s: State<T>, writers: seq<Event>,
      p: string, i: nat, k: nat, j: nat)
    requires Initial(s) && s.calls != [] && AllWriters(writers)
    requires i <= k <= j <= |writers|
    requires !TellsAt(parse, formatOf, Worlds(s.hist[0], writers), p, i, k, j)
    ensures WritersOf(Schedule(writers, p, i, k, j)) == writers
    ensures !RunExplained(parse, formatOf, s, Schedule(writers, p, i, k, j))
  {
    ScheduleWriters(writers, p, i, k, j);
    var r := ScheduleHits(parse, formatOf, s, writers, p, i, k, j);
    RunWriters(parse, formatOf, r, writers, j, |writers|, s.hist[0]);
    var end := Run(parse, formatOf, r, writers[j..|writers|]);
    StaysUnexplained(parse, formatOf, r.hist, end.hist, r.calls[0]);
  }

  /** Exactly which writers keep every interleaving linearizable: those under whom a modification time,
      where it shows twice, stands for one text, as far as the parser takes the texts in between. */
  lemma LinearizableExactly<T(!new)>(parse: Parser<T>, formatOf: string -> Format, s: State<T>, writers: seq<Event>)
    requires Initial(s) && s.calls != [] && AllWriters(writers)
    ensures AlwaysExplained(parse, formatOf, s, writers) <==> StampsTell(parse, formatOf, Worlds(s.hist[0], writers))
  {
    var worlds: seq<Files> := Worlds(s.hist[0], writers);
    if StampsTell(parse, formatOf, worlds) {
      forall events | WritersOf(events) == writers ensures RunExplained(parse, formatOf, s, events) {
        TellingIsExplained(parse, formatOf, s, writers, events);
      }
    } else {
      var p, i: nat, k: nat, j: nat :| !TellsAt(parse, formatOf, worlds, p, i, k, j);
      ReusedStampGoesStale(parse, formatOf, s, writers, p, i, k, j);
    }
  }
}
