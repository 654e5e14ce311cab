/**
  The segmenter `split_sections` of Software/hd_medi_data.py: it turns the
  newline-separated text of a medicine label into an ordered dict from heading
  to content, where the content of a heading is either its trimmed prose or the
  list of its subsection items.

  The module gives the result two ways. `Segmented` is declarative: cut the
  lines into heading sections, render each section's body, store them in order.
  `Step`/`Run` replay the source's loop line by line. `RunIsSegmented` proves the
  two agree, and the method `SplitSections`, written as the source's loop, is
  proved to return `Segmented` of the text's lines.
 */
module Segmenter {
  import opened Text
  import opened Dict

  /** What a heading maps to: its prose (a string) or its subsection items (a list). */
  datatype Content = Plain(text: string) | Subsections(items: seq<string>)

  /** The segmented label: heading key to content, in first-seen order. */
  type Document = seq<(string, Content)>

  // ----- line patterns ------------------------------------------------------

  /** ① .. ⑳ (U+2460 .. U+2473). */
  predicate IsCircledDigit(c: char) {
    '\U{2460}' <= c <= '\U{2473}'
  }

  /** A precomposed Hangul syllable, 가 .. 힣 (U+AC00 .. U+D7A3). */
  predicate IsHangulSyllable(c: char) {
    '\U{AC00}' <= c <= '\U{D7A3}'
  }

  /** The class `[^:\n]`. */
  predicate NotKeyEnd(c: char) {
    c != ':' && c != '\n'
  }

  /** The heading pattern `^(\d+\.\s[^:\n]+)` matches at the start of `line`. */
  predicate IsHeading(line: string) {
    var d := Span(line, IsDigit);
    0 < d && d + 2 < |line| && line[d] == '.' && IsSpace(line[d + 1]) && NotKeyEnd(line[d + 2])
  }

  predicate NotHeading(line: string) {
    !IsHeading(line)
  }

  /** The text the heading pattern matches, used as the dict key. */
  function HeadingKey(line: string): string
    requires IsHeading(line)
  {
    var d := Span(line, IsDigit);
    line[..d + 2 + Span(line[d + 2..], NotKeyEnd)]
  }

  /** The key is itself a heading, a prefix of the line without a colon, and it stops
      just before the first colon (or at the end of the line). */
  lemma HeadingKeyShape(line: string)
    requires IsHeading(line)
    ensures var key := HeadingKey(line);
      && IsHeading(key) && key <= line
      && ':' !in key
      && (|key| < |line| ==> line[|key|] == ':' || line[|key|] == '\n')
  {
    var d := Span(line, IsDigit);
    var n := Span(line[d + 2..], NotKeyEnd);
    KeyIsHeading(line, d, n);
    KeyNoColon(line, d, n);
    KeyStops(line, d, n);
  }

  lemma KeyIsHeading(line: string, d: nat, n: nat)
    requires IsHeading(line) && d == Span(line, IsDigit) && n == Span(line[d + 2..], NotKeyEnd)
    ensures IsHeading(line[..d + 2 + n]) && line[..d + 2 + n] <= line
  {
    var key := line[..d + 2 + n];
    assert key[..d + 1] == line[..d + 1];
    SpanPrefix(line, key, d, IsDigit);
  }

  lemma KeyNoColon(line: string, d: nat, n: nat)
    requires IsHeading(line) && d == Span(line, IsDigit) && n == Span(line[d + 2..], NotKeyEnd)
    ensures ':' !in line[..d + 2 + n]
  {
    var key := line[..d + 2 + n];
    forall i | 0 <= i < |key| ensures key[i] != ':' {
      if i >= d + 2 { assert key[i] == line[d + 2..][i - d - 2]; }
    }
  }

  lemma KeyStops(line: string, d: nat, n: nat)
    requires d + 2 <= |line| && n == Span(line[d + 2..], NotKeyEnd)
    ensures d + 2 + n < |line| ==> line[d + 2 + n] == ':' || line[d + 2 + n] == '\n'
  {
    if d + 2 + n < |line| {
      assert line[d + 2 + n] == line[d + 2..][n];
    }
  }

  /** `Span` looks only at the elements up to the first one that fails. */
  lemma SpanPrefix<T>(s: seq<T>, t: seq<T>, n: nat, p: T -> bool)
    requires n < |s| && n < |t| && Span(s, p) == n && s[..n + 1] == t[..n + 1]
    ensures Span(t, p) == n
  {
    assert s[n] == s[..n + 1][n] == t[..n + 1][n] == t[n];
    forall i | 0 <= i < n ensures t[i] == s[i] {
      assert s[..n + 1][i] == t[..n + 1][i];
    }
  }

  /** The subsection pattern `^(\d+\)|[①-⑳])\s.*|^[가-힣]+\.\s.*` matches at the start of
      `line`: "1) ", "① " or "가. ". Lines hold no line feed, so `.*` runs to the end of the
      line and the matched text is the whole line. */
  predicate IsMarker(line: string) {
    || RunThen(line, IsDigit, ')')
    || (2 <= |line| && IsCircledDigit(line[0]) && IsSpace(line[1]))
    || RunThen(line, IsHangulSyllable, '.')
  }

  /** `line` starts with one or more characters of class `p`, then `mark`, then whitespace. */
  predicate RunThen(line: string, p: char -> bool, mark: char)
    decreases |line|
  {
    3 <= |line| && p(line[0]) && ((line[1] == mark && IsSpace(line[2])) || RunThen(line[1..], p, mark))
  }

  predicate NotMarker(line: string) {
    !IsMarker(line)
  }

  predicate HasMarker(lines: seq<string>) {
    exists i :: 0 <= i < |lines| && IsMarker(lines[i])
  }

  predicate HasHeading(lines: seq<string>) {
    exists i :: 0 <= i < |lines| && IsHeading(lines[i])
  }

  // ----- the declarative definition -----------------------------------------

  /** Prose lines as the source accumulates them: each stripped line preceded by a line feed. */
  function Prose(lines: seq<string>): (p: string)
    ensures |p| >= |lines|
  {
    if lines == [] then "" else "\n" + Strip(lines[0]) + Prose(lines[1..])
  }

  /** The subsection items of a heading body: for every marker line, the prose since the
      previous marker (stripped, when there is any) and then the marker line itself. */
  function SubsectionItems(body: seq<string>): seq<string>
    decreases |body|
  {
    var m := Span(body, NotMarker);
    if m == |body| then []
    else (if m == 0 then [] else [Strip(Prose(body[..m]))]) + [body[m]] + SubsectionItems(body[m + 1..])
  }

  /** The lines of a body after its last marker (all of it when there is no marker). */
  function TrailingProse(body: seq<string>): seq<string>
    decreases |body|
  {
    var m := Span(body, NotMarker);
    if m == |body| then body else TrailingProse(body[m + 1..])
  }

  /** The content a heading gets from its body: the item list when the body has a
      marker line, its stripped prose otherwise. */
  function Render(body: seq<string>): (c: Content)
    ensures c.Subsections? <==> HasMarker(body)
    ensures c.Plain? ==> c.text == Strip(Prose(body))
    ensures c.Subsections? ==> c.items == SubsectionItems(body) && c.items != []
  {
    var m := Span(body, NotMarker);
    if m == |body| then Plain(Strip(Prose(body))) else Subsections(SubsectionItems(body))
  }

  /** A heading line and its body: the lines after it up to the next heading line. */
  datatype Section = Section(heading: string, body: seq<string>)

  predicate WellFormed(sec: Section) {
    IsHeading(sec.heading) && !HasHeading(sec.body)
  }

  /** The sections of a text, in order; lines before the first heading belong to none. */
  function Sections(lines: seq<string>): (secs: seq<Section>)
    ensures forall i :: 0 <= i < |secs| ==> WellFormed(secs[i])
    decreases |lines|
  {
    if lines == [] then []
    else if IsHeading(lines[0]) then
      var n := Span(lines[1..], NotHeading);
      [Section(lines[0], lines[1..][..n])] + Sections(lines[1..][n..])
    else Sections(lines[1..])
  }

  /** Store each section under its key, in order (a repeated key is overwritten in place). */
  function Assemble(doc: Document, secs: seq<Section>): Document
    requires forall i :: 0 <= i < |secs| ==> WellFormed(secs[i])
    decreases |secs|
  {
    if secs == [] then doc
    else
      assert WellFormed(secs[0]);
      Assemble(Put(doc, HeadingKey(secs[0].heading), Render(secs[0].body)), secs[1..])
  }

  /** The segmented document of a list of lines. */
  function Segmented(lines: seq<string>): Document {
    Assemble([], Sections(lines))
  }

  // ----- the source's loop, one line at a time -------------------------------

  /** `current_content` and `current_subsections`. */
  datatype Scope = Scope(pending: string, items: seq<string>)

  /** The loop's state: `structured_data`, `current_section` and the scope. */
  datatype State = State(doc: Document, current: Option<string>, scope: Scope)

  const Initial := State([], None, Scope("", []))

  ghost function AddProse(sc: Scope, line: string): Scope {
    Scope(sc.pending + "\n" + Strip(line), sc.items)
  }

  ghost function AddMarker(sc: Scope, line: string): Scope {
    Scope("", sc.items + (if sc.pending != "" then [Strip(sc.pending)] else []) + [line])
  }

  /** A non-heading line while a heading is open. */
  ghost function ScopeStep(sc: Scope, line: string): Scope {
    if IsMarker(line) then AddMarker(sc, line) else AddProse(sc, line)
  }

  ghost function Close(sc: Scope): Content {
    if sc.items != [] then Subsections(sc.items) else Plain(Strip(sc.pending))
  }

  /** Store the open heading, if any. */
  ghost function Flush(st: State): Document {
    if st.current.Some? then Put(st.doc, st.current.value, Close(st.scope)) else st.doc
  }

  ghost function Step(st: State, line: string): State {
    if IsHeading(line) then State(Flush(st), Some(HeadingKey(line)), Scope("", []))
    else if st.current.Some? then st.(scope := ScopeStep(st.scope, line))
    else st.(scope := AddProse(st.scope, line))
  }

  ghost function Run(st: State, lines: seq<string>): State
    decreases |lines|
  {
    if lines == [] then st else Run(Step(st, lines[0]), lines[1..])
  }

  ghost function ScopeRun(sc: Scope, lines: seq<string>): Scope
    decreases |lines|
  {
    if lines == [] then sc else ScopeRun(ScopeStep(sc, lines[0]), lines[1..])
  }

  // ----- the loop computes the declarative result ----------------------------

  lemma {:induction false} ScopeRunAppend(sc: Scope, a: seq<string>, b: seq<string>)
    ensures ScopeRun(sc, a + b) == ScopeRun(ScopeRun(sc, a), b)
    decreases |a|
  {
    if a != [] {
      assert (a + b)[1..] == a[1..] + b;
      ScopeRunAppend(ScopeStep(sc, a[0]), a[1..], b);
    } else {
      assert a + b == b;
    }
  }

  /** Without a marker, a body only adds prose. */
  lemma {:induction false} ScopeRunProse(p: string, items: seq<string>, lines: seq<string>)
    requires !HasMarker(lines)
    ensures ScopeRun(Scope(p, items), lines) == Scope(p + Prose(lines), items)
    decreases |lines|
  {
    if lines != [] {
      var first := "\n" + Strip(lines[0]);
      assert !IsMarker(lines[0]);
      assert ScopeStep(Scope(p, items), lines[0]) == Scope(p + first, items);
      assert !HasMarker(lines[1..]) by {
        forall i | 0 <= i < |lines[1..]| ensures !IsMarker(lines[1..][i]) {
          assert lines[1..][i] == lines[i + 1];
        }
      }
      ScopeRunProse(p + first, items, lines[1..]);
      assert Prose(lines) == first + Prose(lines[1..]);
      SeqAssoc(p, first, Prose(lines[1..]));
    } else {
      assert p + "" == p;
    }
  }

  lemma SeqAssoc<T>(a: seq<T>, b: seq<T>, c: seq<T>)
    ensures (a + b) + c == a + (b + c)
  {
  }

  lemma TakeOneMore<T>(s: seq<T>, k: nat)
    requires k < |s|
    ensures s[..k + 1] == s[..k] + [s[k]]
  {
  }

  lemma ScopeRunMarker(sc: Scope, x: string, rest: seq<string>)
    requires IsMarker(x)
    ensures ScopeRun(sc, [x] + rest) == ScopeRun(AddMarker(sc, x), rest)
  {
    assert ([x] + rest)[1..] == rest;
  }

  lemma NoMarkerBefore(body: seq<string>, m: nat)
    requires m <= |body| && forall i :: 0 <= i < m ==> NotMarker(body[i])
    ensures !HasMarker(body[..m])
  {
    forall i | 0 <= i < m ensures !IsMarker(body[..m][i]) {
      assert body[..m][i] == body[i];
    }
  }

  lemma {:induction false} ScopeRunItems(items: seq<string>, body: seq<string>)
    ensures ScopeRun(Scope("", items), body) == Scope(Prose(TrailingProse(body)), items + SubsectionItems(body))
    decreases |body|
  {
    var m := Span(body, NotMarker);
    if m == |body| {
      assert body[..m] == body;
      NoMarkerBefore(body, m);
      ScopeRunProse("", items, body);
      assert "" + Prose(body) == Prose(body);
      assert items + [] == items;
    } else {
      var pre, x, rest := body[..m], body[m], body[m + 1..];
      assert body == pre + ([x] + rest);
      NoMarkerBefore(body, m);
      var first := if m == 0 then [] else [Strip(Prose(pre))];
      var pushed := items + first + [x];
      var s0 := ScopeRun(Scope("", items), pre);
      ScopeRunAppend(Scope("", items), pre, [x] + rest);
      assert ScopeRun(Scope("", items), body) == ScopeRun(s0, [x] + rest);
      ScopeRunProse("", items, pre);
      assert "" + Prose(pre) == Prose(pre);
      assert s0 == Scope(Prose(pre), items);
      ScopeRunMarker(s0, x, rest);
      assert Prose(pre) != "" <==> m != 0;
      assert AddMarker(s0, x) == Scope("", pushed);
      ScopeRunItems(pushed, rest);
      assert ScopeRun(Scope("", items), body) == Scope(Prose(TrailingProse(rest)), pushed + SubsectionItems(rest));
      assert SubsectionItems(body) == first + [x] + SubsectionItems(rest);
      SeqAssoc(items, first, [x]);
      SeqAssoc(items, first + [x], SubsectionItems(rest));
      assert pushed + SubsectionItems(rest) == items + SubsectionItems(body);
      assert TrailingProse(body) == TrailingProse(rest);
    }
  }

  /** Closing the scope of a body gives the body's rendering. */
  lemma CloseRender(body: seq<string>)
    ensures Close(ScopeRun(Scope("", []), body)) == Render(body)
  {
    ScopeRunItems([], body);
    assert [] + SubsectionItems(body) == SubsectionItems(body);
    var m := Span(body, NotMarker);
    if m == |body| {
      assert TrailingProse(body) == body;
    }
  }

  /** What is left to do from a state: the open heading (if any) takes the lines up to
      the next heading, and the rest of the text is assembled section by section. */
  ghost function Remaining(st: State, lines: seq<string>): Document {
    var n := Span(lines, NotHeading);
    if st.current.None? then Assemble(st.doc, Sections(lines))
    else Assemble(Put(st.doc, st.current.value, Close(ScopeRun(st.scope, lines[..n]))), Sections(lines[n..]))
  }

  lemma RemainingHeading(st: State, lines: seq<string>)
    requires lines != [] && IsHeading(lines[0])
    ensures Remaining(st, lines) == Remaining(State(Flush(st), Some(HeadingKey(lines[0])), Scope("", [])), lines[1..])
  {
    var rest := lines[1..];
    var n' := Span(rest, NotHeading);
    CloseRender(rest[..n']);
    var secs := Sections(lines);
    assert secs == [Section(lines[0], rest[..n'])] + Sections(rest[n'..]);
    assert secs[1..] == Sections(rest[n'..]);
    if st.current.Some? {
      assert Span(lines, NotHeading) == 0;
      assert lines[..0] == [] && lines[0..] == lines;
    }
  }

  lemma RemainingProse(st: State, lines: seq<string>)
    requires lines != [] && !IsHeading(lines[0]) && st.current.None?
    ensures Remaining(st, lines) == Remaining(st.(scope := AddProse(st.scope, lines[0])), lines[1..])
  {
  }

  lemma RemainingScope(st: State, lines: seq<string>)
    requires lines != [] && !IsHeading(lines[0]) && st.current.Some?
    ensures Remaining(st, lines) == Remaining(st.(scope := ScopeStep(st.scope, lines[0])), lines[1..])
  {
    var rest := lines[1..];
    var n' := Span(rest, NotHeading);
    assert Span(lines, NotHeading) == n' + 1;
    var body := lines[..n' + 1];
    assert body != [] && body[0] == lines[0] && body[1..] == rest[..n'];
    var sc := ScopeRun(ScopeStep(st.scope, lines[0]), rest[..n']);
    assert ScopeRun(st.scope, body) == sc;
    assert lines[n' + 1..] == rest[n'..];
    var closed := Put(st.doc, st.current.value, Close(sc));
    assert Remaining(st, lines) == Assemble(closed, Sections(rest[n'..]));
  }

  /** From any state, the loop run to the end and flushed leaves what `Remaining` says. */
  lemma {:induction false} RunFlush(st: State, lines: seq<string>)
    ensures Flush(Run(st, lines)) == Remaining(st, lines)
    decreases |lines|
  {
    if lines == [] {
      assert lines[..0] == [] && lines[0..] == lines;
    } else if IsHeading(lines[0]) {
      RunFlush(State(Flush(st), Some(HeadingKey(lines[0])), Scope("", [])), lines[1..]);
      RemainingHeading(st, lines);
    } else if st.current.None? {
      RunFlush(st.(scope := AddProse(st.scope, lines[0])), lines[1..]);
      RemainingProse(st, lines);
    } else {
      RunFlush(st.(scope := ScopeStep(st.scope, lines[0])), lines[1..]);
      RemainingScope(st, lines);
    }
  }

  lemma RunUnfold(st: State, lines: seq<string>, i: nat)
    requires i < |lines|
    ensures Run(st, lines[i..]) == Run(Step(st, lines[i]), lines[i + 1..])
  {
    assert lines[i..][1..] == lines[i + 1..];
  }

  /** The source's loop, run over all lines and flushed, gives the declarative result. */
  lemma RunIsSegmented(lines: seq<string>)
    ensures Flush(Run(Initial, lines)) == Segmented(lines)
  {
    RunFlush(Initial, lines);
  }

  // ----- split_sections -------------------------------------------------------

  /** `split_sections(text)`: `None` stands for any value that is not a string. */
  method SplitSections(text: Option<string>) returns (doc: Document)
    ensures text.None? ==> doc == []
    ensures text.Some? ==> doc == Segmented(SplitLines(text.value))
  {
    if text.None? {
      return [];
    }
    var lines := SplitLines(text.value);
    doc := [];
    var section: Option<string> := None;
    var content := "";
    var subsections: seq<string> := [];
    var i := 0;
    while i < |lines|
      invariant 0 <= i <= |lines|
      invariant Run(State(doc, section, Scope(content, subsections)), lines[i..]) == Run(Initial, lines)
    {
      var line := lines[i];
      ghost var st := State(doc, section, Scope(content, subsections));
      RunUnfold(st, lines, i);
      if IsHeading(line) {
        doc := SaveSection(doc, section, content, subsections);
        section := Some(HeadingKey(line));
        content := "";
        subsections := [];
        assert State(doc, section, Scope(content, subsections)) == Step(st, line);
      } else if IsMarker(line) && section.Some? {
        if content != "" {
          subsections := subsections + [Strip(content)];
        } else {
          assert subsections == subsections + [];
        }
        subsections := subsections + [line];
        content := "";
        assert Scope(content, subsections) == ScopeStep(st.scope, line);
      } else {
        content := content + "\n" + Strip(line);
        assert Scope(content, subsections) == AddProse(st.scope, line);
      }
      assert State(doc, section, Scope(content, subsections)) == Step(st, line);
      i := i + 1;
    }
    assert lines[i..] == [];
    doc := SaveSection(doc, section, content, subsections);
    RunIsSegmented(lines);
  }

  /** Store the open heading, if any, with its item list or, when it has none, its
      stripped prose (Software/hd_medi_data.py lines 47-51 and again 68-72). */
  method SaveSection(doc: Document, section: Option<string>, content: string, subsections: seq<string>)
    returns (saved: Document)
    ensures saved == Flush(State(doc, section, Scope(content, subsections)))
  {
    saved := doc;
    if section.Some? {
      if subsections != [] {
        saved := Put(doc, section.value, Subsections(subsections));
      } else {
        saved := Put(doc, section.value, Plain(Strip(content)));
      }
    }
  }
}
