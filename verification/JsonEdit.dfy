/** Comma-aware edits of one JSON object inside a document, against the object grammar of section 4
    of RFC 8259 with the name/value pairs left opaque. */
module JsonEdit {
  import opened Common
  import opened Text

  // ---------------------------------------------------------------- objects

  /** A pair with the whitespace before and after it. */
  datatype Member = Member(pre: string, pair: string, post: string)

  /** `inner` is the whitespace of an object without members. */
  datatype Object = Object(inner: string, members: seq<Member>)

  predicate JsonBlank(s: string) {
    forall i :: 0 <= i < |s| ==> s[i] in {' ', '\t', '\n', '\r'}
  }

  /** A pair opens with the quote of its name and closes with the last character of a value, which
      is neither blank nor an opening brace nor a comma. */
  predicate WfPair(pair: string) {
    && pair != "" && pair[0] == '"'
    && var c := pair[|pair| - 1]; !IsWhitespace(c) && c != '{' && c != ','
  }

  predicate WfMember(m: Member) {
    JsonBlank(m.pre) && JsonBlank(m.post) && WfPair(m.pair)
  }

  predicate Wf(o: Object) {
    && JsonBlank(o.inner) && (o.members != [] ==> o.inner == "")
    && forall i :: 0 <= i < |o.members| ==> WfMember(o.members[i])
  }

  function MemberText(m: Member): string {
    m.pre + m.pair + m.post
  }

  /** Members each followed by a comma. */
  function Left(ms: seq<Member>): string {
    if ms == [] then "" else Left(ms[..|ms| - 1]) + MemberText(ms[|ms| - 1]) + ","
  }

  /** Members each preceded by a comma. */
  function Right(ms: seq<Member>): string {
    if ms == [] then "" else "," + MemberText(ms[0]) + Right(ms[1..])
  }

  /** The object's text up to its closing brace. */
  function Body(o: Object): string {
    "{" + if o.members == [] then o.inner else MemberText(o.members[0]) + Right(o.members[1..])
  }

  function Render(o: Object): string {
    Body(o) + "}"
  }

  function Pairs(o: Object): seq<string> {
    seq(|o.members|, i requires 0 <= i < |o.members| => o.members[i].pair)
  }

  lemma Regroup(l: string, m: string, n: string, r: string)
    ensures "{" + l + m + ("," + n + r) + "}" == "{" + (l + m + ",") + n + r + "}"
  {
  }

  /** The text around any chosen member. */
  lemma {:induction false} RenderAround(o: Object, i: nat)
    requires i < |o.members|
    ensures Render(o) == "{" + Left(o.members[..i]) + MemberText(o.members[i]) + Right(o.members[i + 1..]) + "}"
    decreases i
  {
    var ms := o.members;
    if i == 0 {
      assert Left(ms[..0]) == "";
    } else {
      RenderAround(o, i - 1);
      var l, m, n, r := Left(ms[..i - 1]), MemberText(ms[i - 1]), MemberText(ms[i]), Right(ms[i + 1..]);
      assert Left(ms[..i]) == l + m + "," by { assert ms[..i][..i - 1] == ms[..i - 1]; }
      assert Right(ms[i..]) == "," + n + r by { assert ms[i..][1..] == ms[i + 1..]; }
      Regroup(l, m, n, r);
    }
  }

  // ---------------------------------------------------------------- edits

  datatype Edit = Edit(from: nat, to: nat, newText: string)

  function Replace(source: string, e: Edit): string
    requires e.from <= e.to <= |source|
  {
    source[..e.from] + e.newText + source[e.to..]
  }

  function RFind(s: string, c: char): (r: Option<nat>)
    ensures if r.Some? then r.value < |s| && s[r.value] == c && c !in s[r.value + 1..] else c !in s
  {
    if s == "" then None else if s[|s| - 1] == c then Some(|s| - 1) else RFind(s[..|s| - 1], c)
  }

  function NewPair(key: string, value: string): string {
    "\"" + key + "\":" + value
  }

  /** `insert_pair_edit`: `text` is the object's text, `start` its offset in the document. */
  function InsertPairEdit(text: string, start: nat, key: string, value: string): Option<Edit> {
    match RFind(text, '}')
    case None => None
    case Some(close) =>
      var trimmed := TrimEnd(text[..close]);
      var needsComma := trimmed != "" && trimmed[|trimmed| - 1] != '{' && trimmed[|trimmed| - 1] != ',';
      Some(Edit(start + close, start + close, (if needsComma then "," else "") + NewPair(key, value)))
  }

  /** The index of the comma `s` ends in, blanks aside. */
  function TrailingComma(s: string): (r: Option<nat>)
    ensures r.Some? ==> r.value < |s| && s[r.value] == ',' && Blank(s[r.value + 1..])
  {
    var t := TrimEnd(s);
    if t != "" && t[|t| - 1] == ',' then Some(|t| - 1) else None
  }

  /** The index of the comma `s` starts with, blanks aside. */
  function LeadingComma(s: string): (r: Option<nat>)
    ensures r.Some? ==> r.value < |s| && s[r.value] == ',' && Blank(s[..r.value])
  {
    var t := TrimStart(s);
    if t != "" && t[0] == ',' then Some(|s| - |t|) else None
  }

  /** `remove_pair_edit`: the pair spans `pairStart` to `pairEnd` within the object's text. */
  function RemovePairEdit(text: string, start: nat, pairStart: nat, pairEnd: nat): (e: Edit)
    requires pairStart <= pairEnd <= |text|
    ensures start <= e.from <= start + pairStart && start + pairEnd <= e.to <= start + |text|
  {
    var behind, ahead := TrailingComma(text[..pairStart]), LeadingComma(text[pairEnd..]);
    if behind.Some? then Edit(start + behind.value, start + pairEnd, "")
    else if ahead.Some? then Edit(start + pairStart, start + pairEnd + ahead.value + 1, "")
    else Edit(start + pairStart, start + pairEnd, "")
  }

  // ---------------------------------------------------------------- what the edits do to the object

  function Inserted(o: Object, pair: string): Object {
    if o.members == [] then Object("", [Member(o.inner, pair, "")])
    else Object("", o.members + [Member("", pair, "")])
  }

  /** The blank space around the removed pair joins its neighbour's. */
  function Removed(o: Object, i: nat): Object
    requires i < |o.members|
  {
    var ms, m := o.members, o.members[i];
    if i > 0 then Object("", ms[..i - 1] + [ms[i - 1].(post := ms[i - 1].post + m.post)] + ms[i + 1..])
    else if |ms| > 1 then Object("", [ms[1].(pre := m.pre + ms[1].pre)] + ms[2..])
    else Object(m.pre + m.post, [])
  }

  lemma JsonBlankIsBlank(s: string)
    requires JsonBlank(s)
    ensures Blank(s)
  {
  }

  lemma TrimEndStops(s: string, blank: string)
    requires s != "" && !IsWhitespace(s[|s| - 1]) && JsonBlank(blank)
    ensures TrimEnd(s + blank) == s
  {
    JsonBlankIsBlank(blank);
    TrimEndBlank(s, blank);
  }

  lemma TrimStartStops(blank: string, s: string)
    requires s != "" && !IsWhitespace(s[0]) && JsonBlank(blank)
    ensures TrimStart(blank + s) == s
  {
    JsonBlankIsBlank(blank);
    TrimStartBlank(blank, s);
  }

  lemma {:induction false} RightSnoc(ms: seq<Member>, m: Member)
    ensures Right(ms + [m]) == Right(ms) + "," + MemberText(m)
  {
    if ms == [] {
      assert ms + [m] == [m] && [m][1..] == [];
    } else {
      assert (ms + [m])[1..] == ms[1..] + [m];
      RightSnoc(ms[1..], m);
    }
  }

  lemma BeforeClose(o: Object)
    requires Wf(o)
    ensures
      var text := Render(o);
      && RFind(text, '}') == Some(|text| - 1)
      && var trimmed := TrimEnd(text[..|text| - 1]);
         && trimmed != ""
         && (o.members == [] ==> trimmed == "{")
         && (o.members != [] ==> trimmed[|trimmed| - 1] != '{' && trimmed[|trimmed| - 1] != ',')
  {
    var text := Render(o);
    assert text[|text| - 1] == '}';
    if o.members == [] {
      assert text[..|text| - 1] == "{" + o.inner;
      TrimEndStops("{", o.inner);
    } else {
      var n := |o.members| - 1;
      var m := o.members[n];
      RenderAround(o, n);
      assert Right(o.members[n + 1..]) == "";
      var solid := "{" + Left(o.members[..n]) + m.pre + m.pair;
      assert text[..|text| - 1] == solid + m.post;
      assert solid[|solid| - 1] == m.pair[|m.pair| - 1];
      TrimEndStops(solid, m.post);
    }
  }

  lemma ReplaceInside(prefix: string, text: string, suffix: string, e: Edit)
    requires e.from <= e.to <= |text|
    ensures Replace(prefix + text + suffix, Edit(|prefix| + e.from, |prefix| + e.to, e.newText)) == prefix
      + Replace(text, e) + suffix
  {
    var source := prefix + text + suffix;
    assert source[..|prefix| + e.from] == prefix + text[..e.from];
    assert source[|prefix| + e.to..] == text[e.to..] + suffix;
  }

  lemma InsertedEmpty(o: Object, pair: string)
    requires o.members == []
    ensures Body(Inserted(o, pair)) == Body(o) + pair
  {
    var m := Member(o.inner, pair, "");
    assert [m][1..] == [] && MemberText(m) == o.inner + pair;
    assert "{" + (o.inner + pair + "") == ("{" + o.inner) + pair;
  }

  lemma InsertedLast(o: Object, pair: string)
    requires o.members != []
    ensures Body(Inserted(o, pair)) == Body(o) + ("," + pair)
  {
    var ms, added := o.members, Member("", pair, "");
    var first, tail := MemberText(ms[0]), Right(ms[1..]);
    assert (ms + [added])[1..] == ms[1..] + [added] && (ms + [added])[0] == ms[0];
    RightSnoc(ms[1..], added);
    assert MemberText(added) == pair;
    assert "{" + (first + (tail + "," + pair)) == ("{" + (first + tail)) + ("," + pair);
  }

  function Separator(o: Object): string {
    if o.members == [] then "" else ","
  }

  lemma InsertedText(o: Object, pair: string)
    ensures var text := Render(o);
      Replace(text, Edit(|text| - 1, |text| - 1, Separator(o) + pair)) == Render(Inserted(o, pair))
  {
    InsertBeforeBrace(Body(o), Separator(o) + pair);
    if o.members == [] {
      InsertedEmpty(o, pair);
      assert "" + pair == pair;
    } else {
      InsertedLast(o, pair);
    }
  }

  lemma InsertBeforeBrace(body: string, added: string)
    ensures var text := body + "}";
      Replace(text, Edit(|text| - 1, |text| - 1, added)) == body + added + "}"
  {
    var text := body + "}";
    assert text[..|text| - 1] == body && text[|text| - 1..] == "}";
  }

  lemma InsertedIsWf(o: Object, pair: string)
    requires Wf(o) && WfPair(pair)
    ensures Wf(Inserted(o, pair)) && Pairs(Inserted(o, pair)) == Pairs(o) + [pair]
  {
  }

  lemma InsertEditIs(o: Object, start: nat, key: string, value: string)
    requires Wf(o)
    ensures var at := start + |Render(o)| - 1;
      InsertPairEdit(Render(o), start, key, value) == Some(Edit(at, at, Separator(o) + NewPair(key, value)))
  {
    BeforeClose(o);
  }

  /** Insertion turns the object, wherever it stands in a document, into one with exactly one more
      pair, at the end; everything around it stays. */
  lemma InsertIsCorrect(prefix: string, suffix: string, o: Object, key: string, value: string)
    requires Wf(o) && WfPair(NewPair(key, value))
    ensures
      var source, e := prefix + Render(o) + suffix, InsertPairEdit(Render(o), |prefix|, key, value);
      && e.Some? && e.value.from <= e.value.to <= |source|
      && Replace(source, e.value) == prefix + Render(Inserted(o, NewPair(key, value))) + suffix
      && Wf(Inserted(o, NewPair(key, value)))
      && Pairs(Inserted(o, NewPair(key, value))) == Pairs(o) + [NewPair(key, value)]
  {
    InsertEditIs(o, |prefix|, key, value);
    InsertedIsWf(o, NewPair(key, value));
    InsertInDocument(prefix, suffix, o, NewPair(key, value));
  }

  lemma InsertInDocument(prefix: string, suffix: string, o: Object, pair: string)
    requires Wf(o) && WfPair(pair)
    ensures
      var source, at := prefix + Render(o) + suffix, |prefix| + |Render(o)| - 1;
      at <= |source| && Replace(source, Edit(at, at, Separator(o) + pair)) == prefix + Render(Inserted(o, pair))
        + suffix
  {
    var text := Render(o);
    InsertedText(o, pair);
    ReplaceInside(prefix, text, suffix, Edit(|text| - 1, |text| - 1, Separator(o) + pair));
  }

  /** The object's text before and behind a member's pair. */
  function Head(o: Object, i: nat): string
    requires i < |o.members|
  {
    "{" + Left(o.members[..i]) + o.members[i].pre
  }

  function Rest(o: Object, i: nat): string
    requires i < |o.members|
  {
    o.members[i].post + Right(o.members[i + 1..]) + "}"
  }

  function PairStart(o: Object, i: nat): nat
    requires i < |o.members|
  {
    |Head(o, i)|
  }

  lemma RenderSplit(o: Object, i: nat)
    requires i < |o.members|
    ensures Render(o) == Head(o, i) + o.members[i].pair + Rest(o, i)
  {
    RenderAround(o, i);
    var l, m, r := Left(o.members[..i]), o.members[i], Right(o.members[i + 1..]);
    assert "{" + l + (m.pre + m.pair + m.post) + r + "}" == ("{" + l + m.pre) + m.pair + (m.post + r + "}");
  }

  lemma Cut(head: string, pair: string, rest: string)
    ensures var text := head + pair + rest;
      text[..|head|] == head && text[|head|..|head| + |pair|] == pair && text[|head| + |pair|..] == rest
  {
  }

  lemma CommaBehind(solid: string, blank: string)
    requires JsonBlank(blank)
    ensures TrailingComma(solid + "," + blank) == Some(|solid|)
  {
    TrimEndStops(solid + ",", blank);
  }

  lemma NoCommaBehind(blank: string)
    requires JsonBlank(blank)
    ensures TrailingComma("{" + blank) == None
  {
    TrimEndStops("{", blank);
  }

  lemma CommaAhead(blank: string, tail: string)
    requires JsonBlank(blank)
    ensures LeadingComma(blank + ("," + tail)) == Some(|blank|)
  {
    TrimStartStops(blank, "," + tail);
  }

  lemma NoCommaAhead(blank: string)
    requires JsonBlank(blank)
    ensures LeadingComma(blank + "}") == None
  {
    TrimStartStops(blank, "}");
  }

  /** What is left of the text around a removed pair. */
  function Joined(head: string, rest: string): string {
    var behind, ahead := TrailingComma(head), LeadingComma(rest);
    if behind.Some? then head[..behind.value] + rest
    else if ahead.Some? then head + rest[ahead.value + 1..]
    else head + rest
  }

  lemma RemovalText(text: string, s: nat, t: nat)
    requires s <= t <= |text|
    ensures Replace(text, RemovePairEdit(text, 0, s, t)) == Joined(text[..s], text[t..])
  {
    var behind, ahead := TrailingComma(text[..s]), LeadingComma(text[t..]);
    RemovalEdit(text, s, t, behind, ahead);
    RemovalCut(text, s, t, behind, ahead);
  }

  lemma RemovalEdit(text: string, s: nat, t: nat, behind: Option<nat>, ahead: Option<nat>)
    requires s <= t <= |text| && behind == TrailingComma(text[..s]) && ahead == LeadingComma(text[t..])
    ensures RemovePairEdit(text, 0, s, t) ==
      if behind.Some? then Edit(behind.value, t, "") else if ahead.Some? then Edit(s, t + ahead.value + 1, "")
        else Edit(s, t, "")
  {
  }

  lemma RemovalCut(text: string, s: nat, t: nat, behind: Option<nat>, ahead: Option<nat>)
    requires s <= t <= |text| && (behind.Some? ==> behind.value <= s) && (ahead.Some? ==> ahead.value < |text| - t)
    ensures
      Replace(text, if behind.Some? then Edit(behind.value, t, "") else if ahead.Some?
        then Edit(s, t + ahead.value + 1, "") else Edit(s, t, "")) ==
        if behind.Some? then text[..s][..behind.value] + text[t..]
        else if ahead.Some? then text[..s] + text[t..][ahead.value + 1..]
        else text[..s] + text[t..]
  {
    if behind.Some? {
      CutBehind(text, s, t, behind.value);
    } else if ahead.Some? {
      CutAhead(text, s, t, ahead.value + 1);
    } else {
      CutAhead(text, s, t, 0);
    }
  }

  lemma CutBehind(text: string, s: nat, t: nat, k: nat)
    requires k <= s <= t <= |text|
    ensures Replace(text, Edit(k, t, "")) == text[..s][..k] + text[t..]
  {
    assert text[..k] + "" == text[..s][..k];
  }

  lemma CutAhead(text: string, s: nat, t: nat, k: nat)
    requires s <= t && t + k <= |text|
    ensures Replace(text, Edit(s, t + k, "")) == text[..s] + text[t..][k..]
  {
    assert text[..s] + "" == text[..s] && text[t + k..] == text[t..][k..];
  }

  lemma JoinedLater(o: Object, i: nat)
    requires Wf(o) && 0 < i < |o.members|
    ensures Joined(Head(o, i), Rest(o, i)) == Render(Removed(o, i))
  {
    var ms, p := o.members, o.members[i - 1];
    assert WfMember(ms[i]);
    var solid := "{" + Left(ms[..i - 1]) + MemberText(p);
    assert Head(o, i) == solid + "," + ms[i].pre by {
      assert ms[..i][..i - 1] == ms[..i - 1];
      assert "{" + (Left(ms[..i - 1]) + MemberText(p) + ",") == solid + ",";
    }
    CommaBehind(solid, ms[i].pre);
    assert Head(o, i)[..|solid|] == solid;
    LaterRest(o, i);
  }

  lemma LaterRest(o: Object, i: nat)
    requires 0 < i < |o.members|
    ensures Render(Removed(o, i)) == ("{" + Left(o.members[..i - 1]) + MemberText(o.members[i - 1])) + Rest(o, i)
  {
    var ms, m, p, r := o.members, o.members[i], o.members[i - 1], Removed(o, i);
    var merged := p.(post := p.post + m.post);
    assert r.members[..i - 1] == ms[..i - 1] && r.members[i - 1] == merged && r.members[i..] == ms[i + 1..];
    RenderAround(r, i - 1);
    var l, t, tail := Left(ms[..i - 1]), MemberText(p), Right(ms[i + 1..]);
    assert MemberText(merged) == t + m.post;
    assert "{" + l + (t + m.post) + tail + "}" == ("{" + l + t) + (m.post + tail + "}");
  }

  lemma AroundFirst(o: Object)
    requires |o.members| > 1
    ensures Head(o, 0) == "{" + o.members[0].pre
    ensures Rest(o, 0) == o.members[0].post + ("," + (MemberText(o.members[1]) + Right(o.members[2..]) + "}"))
  {
    var ms := o.members;
    assert Left(ms[..0]) == "" && ms[1..][1..] == ms[2..];
  }

  lemma AfterComma(s: string, tail: string)
    ensures (s + ("," + tail))[|s| + 1..] == tail
  {
  }

  lemma JoinedFirst(o: Object)
    requires Wf(o) && |o.members| > 1
    ensures Joined(Head(o, 0), Rest(o, 0)) == Render(Removed(o, 0))
  {
    var ms, m, q := o.members, o.members[0], o.members[1];
    assert WfMember(m);
    var tail := MemberText(q) + Right(ms[2..]) + "}";
    NoCommaBehind(m.pre);
    AroundFirst(o);
    CommaAhead(m.post, tail);
    AfterComma(m.post, tail);
    FirstRest(o);
  }

  lemma FirstRest(o: Object)
    requires |o.members| > 1
    ensures var ms := o.members;
      Render(Removed(o, 0)) == ("{" + ms[0].pre) + (MemberText(ms[1]) + Right(ms[2..]) + "}")
  {
    var ms, m, q := o.members, o.members[0], o.members[1];
    var merged := q.(pre := m.pre + q.pre);
    assert Removed(o, 0).members[0] == merged && Removed(o, 0).members[1..] == ms[2..];
    var t, tail := MemberText(q), Right(ms[2..]);
    assert MemberText(merged) == m.pre + t;
    assert "{" + (m.pre + t + tail) + "}" == ("{" + m.pre) + (t + tail + "}");
  }

  lemma JoinedOnly(o: Object)
    requires Wf(o) && |o.members| == 1
    ensures Joined(Head(o, 0), Rest(o, 0)) == Render(Removed(o, 0))
  {
    var m := o.members[0];
    assert WfMember(m);
    AroundOnly(o);
    NoCommaBehind(m.pre);
    NoCommaAhead(m.post);
  }

  lemma AroundOnly(o: Object)
    requires |o.members| == 1
    ensures Head(o, 0) == "{" + o.members[0].pre && Rest(o, 0) == o.members[0].post + "}"
    ensures Render(Removed(o, 0)) == Head(o, 0) + Rest(o, 0)
  {
    var m := o.members[0];
    assert o.members[1..] == [] && Left(o.members[..0]) == "";
    assert "{" + (m.pre + m.post) + "}" == ("{" + m.pre) + (m.post + "}");
  }

  lemma JoinedIsRemoved(o: Object, i: nat)
    requires Wf(o) && i < |o.members|
    ensures Joined(Head(o, i), Rest(o, i)) == Render(Removed(o, i))
  {
    if i > 0 {
      JoinedLater(o, i);
    } else if |o.members| > 1 {
      JoinedFirst(o);
    } else {
      JoinedOnly(o);
    }
  }

  lemma RemovedIsWf(o: Object, i: nat)
    requires Wf(o) && i < |o.members|
    ensures Wf(Removed(o, i))
    ensures Pairs(Removed(o, i)) == Pairs(o)[..i] + Pairs(o)[i + 1..]
  {
    assert WfMember(o.members[i]);
    if i > 0 {
      RemovedLaterIsWf(o, i);
    } else if |o.members| > 1 {
      assert WfMember(o.members[1]);
    }
  }

  lemma RemovedLaterIsWf(o: Object, i: nat)
    requires Wf(o) && 0 < i < |o.members|
    ensures Wf(Removed(o, i))
    ensures Pairs(Removed(o, i)) == Pairs(o)[..i] + Pairs(o)[i + 1..]
  {
    var ms, left := o.members, Removed(o, i).members;
    assert WfMember(ms[i - 1]) && WfMember(ms[i]);
    assert |left| == |ms| - 1;
    forall j | 0 <= j < |left|
      ensures WfMember(left[j]) && left[j].pair == if j < i then ms[j].pair else ms[j + 1].pair
    {
      assert j != i - 1 ==> left[j] == if j < i then ms[j] else ms[j + 1];
    }
  }

  lemma RemovePairEditShift(text: string, start: nat, s: nat, t: nat)
    requires s <= t <= |text|
    ensures var e := RemovePairEdit(text, 0, s, t);
      RemovePairEdit(text, start, s, t) == Edit(start + e.from, start + e.to, e.newText)
  {
  }

  function PairEnd(o: Object, i: nat): nat
    requires i < |o.members|
  {
    PairStart(o, i) + |o.members[i].pair|
  }

  lemma PairSpan(o: Object, i: nat)
    requires i < |o.members|
    ensures var text, s, t := Render(o), PairStart(o, i), PairEnd(o, i);
      t <= |text| && text[..s] == Head(o, i) && text[s..t] == o.members[i].pair && text[t..] == Rest(o, i)
  {
    RenderSplit(o, i);
    Cut(Head(o, i), o.members[i].pair, Rest(o, i));
  }

  /** The edit for member `i` of an object at offset `start`. */
  function RemoveMember(o: Object, start: nat, i: nat): Edit
    requires i < |o.members|
  {
    PairSpan(o, i);
    RemovePairEdit(Render(o), start, PairStart(o, i), PairEnd(o, i))
  }

  lemma RemoveInText(o: Object, i: nat)
    requires Wf(o) && i < |o.members|
    ensures var e := RemoveMember(o, 0, i);
      e.from <= e.to <= |Render(o)| && Replace(Render(o), e) == Render(Removed(o, i))
  {
    PairSpan(o, i);
    RemovalText(Render(o), PairStart(o, i), PairEnd(o, i));
    JoinedIsRemoved(o, i);
  }

  lemma RemoveInside(prefix: string, text: string, suffix: string, s: nat, t: nat)
    requires s <= t <= |text|
    ensures Replace(prefix + text + suffix, RemovePairEdit(text, |prefix|, s, t))
      == prefix + Replace(text, RemovePairEdit(text, 0, s, t)) + suffix
  {
    var e := RemovePairEdit(text, 0, s, t);
    RemovePairEditShift(text, |prefix|, s, t);
    assert e.from <= e.to <= |text|;
    ReplaceInside(prefix, text, suffix, e);
  }

  lemma RemoveInDocument(prefix: string, suffix: string, o: Object, i: nat)
    requires Wf(o) && i < |o.members|
    ensures
      var source, e := prefix + Render(o) + suffix, RemoveMember(o, |prefix|, i);
      e.from <= e.to <= |source| && Replace(source, e) == prefix + Render(Removed(o, i)) + suffix
  {
    PairSpan(o, i);
    RemoveInText(o, i);
    RemoveInside(prefix, Render(o), suffix, PairStart(o, i), PairEnd(o, i));
  }

  /** Removal turns the object, wherever it stands in a document, into one with exactly that pair
      gone; everything around it stays. */
  lemma RemoveIsCorrect(prefix: string, suffix: string, o: Object, i: nat)
    requires Wf(o) && i < |o.members|
    ensures Wf(Removed(o, i)) && Pairs(Removed(o, i)) == Pairs(o)[..i] + Pairs(o)[i + 1..]
    ensures
      var source, e := prefix + Render(o) + suffix, RemoveMember(o, |prefix|, i);
      e.from <= e.to <= |source| && Replace(source, e) == prefix + Render(Removed(o, i)) + suffix
  {
    RemovedIsWf(o, i);
    RemoveInDocument(prefix, suffix, o, i);
  }

  lemma RemovedInserted(o: Object, pair: string)
    requires Wf(o)
    ensures Removed(Inserted(o, pair), |o.members|) == o
  {
    var n, grown := |o.members|, Inserted(o, pair);
    if n > 0 {
      var last := o.members[n - 1];
      assert last.post + "" == last.post;
      assert Removed(grown, n).members == o.members;
    } else {
      assert o.inner + "" == o.inner;
    }
  }

  /** Removing the pair just inserted restores the document byte for byte. */
  lemma RemoveUndoesInsert(prefix: string, suffix: string, o: Object, key: string, value: string)
    requires Wf(o) && WfPair(NewPair(key, value))
    ensures
      var source, added := prefix + Render(o) + suffix, InsertPairEdit(Render(o), |prefix|, key, value);
      && added.Some? && added.value.from <= added.value.to <= |source|
      && var edited := Replace(source, added.value);
         var e := RemoveMember(Inserted(o, NewPair(key, value)), |prefix|, |o.members|);
         e.from <= e.to <= |edited| && Replace(edited, e) == source
  {
    var grown := Inserted(o, NewPair(key, value));
    InsertIsCorrect(prefix, suffix, o, key, value);
    RemoveIsCorrect(prefix, suffix, grown, |o.members|);
    RemovedInserted(o, NewPair(key, value));
  }
}
