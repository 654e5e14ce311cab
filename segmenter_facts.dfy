/**
  What the segmenter promises, stated over the declarative `Segmented` (which
  `SplitSections` is proved to compute): which keys appear, which value each key
  ends with, and how a heading's body becomes its content.
 */
module SegmenterFacts {
  import opened Text
  import opened Dict
  import opened Segmenter

  /** Some heading line of `lines` has key `k`. */
  predicate HeadsWith(lines: seq<string>, k: string) {
    exists i :: 0 <= i < |lines| && IsHeading(lines[i]) && HeadingKey(lines[i]) == k
  }

  /** The body of the heading at line `i`: the lines after it up to the next heading. */
  function BodyAt(lines: seq<string>, i: nat): (body: seq<string>)
    requires i < |lines|
    ensures !HasHeading(body)
  {
    var after := lines[i + 1..];
    after[..Span(after, NotHeading)]
  }

  /** No heading line after line `i` has the same key as line `i`. */
  predicate LastWithKey(lines: seq<string>, i: nat)
    requires i < |lines| && IsHeading(lines[i])
  {
    forall j :: i < j < |lines| && IsHeading(lines[j]) ==> HeadingKey(lines[j]) != HeadingKey(lines[i])
  }

  // ----- helpers on the section split ----------------------------------------

  lemma HeadsWithAppend(a: seq<string>, b: seq<string>, k: string)
    ensures HeadsWith(a + b, k) <==> HeadsWith(a, k) || HeadsWith(b, k)
  {
    if HeadsWith(a + b, k) {
      var i :| 0 <= i < |a + b| && IsHeading((a + b)[i]) && HeadingKey((a + b)[i]) == k;
      if i < |a| { assert (a + b)[i] == a[i]; } else { assert (a + b)[i] == b[i - |a|]; }
    }
    if HeadsWith(a, k) {
      var i :| 0 <= i < |a| && IsHeading(a[i]) && HeadingKey(a[i]) == k;
      assert (a + b)[i] == a[i];
    }
    if HeadsWith(b, k) {
      var i :| 0 <= i < |b| && IsHeading(b[i]) && HeadingKey(b[i]) == k;
      assert (a + b)[i + |a|] == b[i];
    }
  }

  /** A text that starts with a heading: its first section and what follows it. */
  lemma SplitFirst(lines: seq<string>)
    requires lines != [] && IsHeading(lines[0])
    ensures Sections(lines) == [Section(lines[0], BodyAt(lines, 0))] + Sections(lines[|BodyAt(lines, 0)| + 1..])
  {
    assert lines[1..][|BodyAt(lines, 0)|..] == lines[|BodyAt(lines, 0)| + 1..];
  }

  lemma AssembleFirst(d: Document, lines: seq<string>)
    requires lines != [] && IsHeading(lines[0])
    ensures Assemble(d, Sections(lines))
      == Assemble(Put(d, HeadingKey(lines[0]), Render(BodyAt(lines, 0))), Sections(lines[|BodyAt(lines, 0)| + 1..]))
  {
    SplitFirst(lines);
    var secs := Sections(lines);
    assert secs[1..] == Sections(lines[|BodyAt(lines, 0)| + 1..]);
  }

  lemma HeadsWithFirst(lines: seq<string>, k: string)
    requires lines != [] && IsHeading(lines[0])
    ensures HeadsWith(lines, k) <==> HeadingKey(lines[0]) == k || HeadsWith(lines[|BodyAt(lines, 0)| + 1..], k)
  {
    var body := BodyAt(lines, 0);
    assert lines == [lines[0]] + body + lines[|body| + 1..];
    HeadsWithAppend([lines[0]] + body, lines[|body| + 1..], k);
    HeadsWithAppend([lines[0]], body, k);
  }

  lemma HeadsWithTail(lines: seq<string>, k: string)
    requires lines != [] && !IsHeading(lines[0])
    ensures HeadsWith(lines, k) <==> HeadsWith(lines[1..], k)
  {
    assert lines == [lines[0]] + lines[1..];
    HeadsWithAppend([lines[0]], lines[1..], k);
  }

  // ----- lines before the first heading ---------------------------------------

  lemma {:induction false} SectionsSkipPreamble(pre: seq<string>, lines: seq<string>)
    requires !HasHeading(pre)
    ensures Sections(pre + lines) == Sections(lines)
    decreases |pre|
  {
    if pre != [] {
      assert !IsHeading(pre[0]);
      assert (pre + lines)[1..] == pre[1..] + lines;
      assert !HasHeading(pre[1..]) by {
        forall i | 0 <= i < |pre[1..]| ensures !IsHeading(pre[1..][i]) {
          assert pre[1..][i] == pre[i + 1];
        }
      }
      SectionsSkipPreamble(pre[1..], lines);
    } else {
      assert pre + lines == lines;
    }
  }

  /** Lines before the first heading never reach the result. */
  lemma PreambleIgnored(pre: seq<string>, lines: seq<string>)
    requires !HasHeading(pre)
    ensures Segmented(pre + lines) == Segmented(lines)
  {
    SectionsSkipPreamble(pre, lines);
  }

  /** A text without a heading line segments to the empty dict. */
  lemma NoHeadingEmpty(lines: seq<string>)
    requires !HasHeading(lines)
    ensures Segmented(lines) == []
  {
    SectionsSkipPreamble(lines, []);
    assert lines + [] == lines;
  }

  /** The lines of some sections written back one after another, each heading line
      followed by its body. */
  function SectionLines(secs: seq<Section>): (lines: seq<string>)
    ensures |lines| >= |secs|
    decreases |secs|
  {
    if secs == [] then [] else [secs[0].heading] + secs[0].body + SectionLines(secs[1..])
  }

  /** The sections partition the text from its first heading line on: written back in
      order, they give exactly those lines, none lost, none repeated. */
  lemma {:induction false} SectionsCover(lines: seq<string>)
    ensures SectionLines(Sections(lines)) == lines[Span(lines, NotHeading)..]
    decreases |lines|, 1
  {
    if lines == [] {
    } else if IsHeading(lines[0]) {
      CoverHeading(lines);
    } else {
      var s := Span(lines[1..], NotHeading);
      SectionsCover(lines[1..]);
      assert lines[1..][s..] == lines[s + 1..];
    }
  }

  lemma {:induction false} CoverHeading(lines: seq<string>)
    requires lines != [] && IsHeading(lines[0])
    ensures SectionLines(Sections(lines)) == lines
    decreases |lines|, 0
  {
    var rest := lines[1..];
    var n := Span(rest, NotHeading);
    var after := rest[n..];
    SectionsCover(after);
    if after != [] {
      assert IsHeading(after[0]);
      assert Span(after, NotHeading) == 0;
    }
    assert after[Span(after, NotHeading)..] == after;
    var sec := Section(lines[0], rest[..n]);
    assert Sections(lines) == [sec] + Sections(after);
    SectionLinesCons(sec, Sections(after));
    Rejoin(lines, n);
  }

  lemma {:induction false} SectionLinesCons(sec: Section, secs: seq<Section>)
    ensures SectionLines([sec] + secs) == [sec.heading] + sec.body + SectionLines(secs)
  {
    assert ([sec] + secs)[1..] == secs;
  }

  lemma Rejoin<T>(s: seq<T>, n: nat)
    requires s != [] && n <= |s| - 1
    ensures s == [s[0]] + s[1..][..n] + s[1..][n..]
  {
  }

  // ----- keys ------------------------------------------------------------------

  lemma {:induction false} AssembleKeys(d: Document, lines: seq<string>, k: string)
    ensures k in ToMap(Assemble(d, Sections(lines))) <==> k in ToMap(d) || HeadsWith(lines, k)
    decreases |lines|
  {
    if lines == [] {
    } else if IsHeading(lines[0]) {
      var body := BodyAt(lines, 0);
      AssembleFirst(d, lines);
      HeadsWithFirst(lines, k);
      AssembleKeys(Put(d, HeadingKey(lines[0]), Render(body)), lines[|body| + 1..], k);
    } else {
      HeadsWithTail(lines, k);
      AssembleKeys(d, lines[1..], k);
    }
  }

  lemma {:induction false} AssembleUnique(d: Document, lines: seq<string>)
    requires UniqueKeys(d)
    ensures UniqueKeys(Assemble(d, Sections(lines)))
    decreases |lines|
  {
    if lines == [] {
    } else if IsHeading(lines[0]) {
      var body := BodyAt(lines, 0);
      AssembleFirst(d, lines);
      AssembleUnique(Put(d, HeadingKey(lines[0]), Render(body)), lines[|body| + 1..]);
    } else {
      SkipProseLine(lines);
      AssembleUnique(d, lines[1..]);
    }
  }

  /** The keys of the result are exactly the keys of the heading lines (each the line up
      to its first colon), each stored once. */
  lemma SegmentedKeys(lines: seq<string>)
    ensures UniqueKeys(Segmented(lines))
    ensures forall k :: k in ToMap(Segmented(lines)) <==> HeadsWith(lines, k)
  {
    AssembleUnique([], lines);
    forall k ensures k in ToMap(Segmented(lines)) <==> HeadsWith(lines, k) {
      AssembleKeys([], lines, k);
    }
  }

  /** The keys of the heading lines, in text order (repeats included). */
  function HeadingKeys(lines: seq<string>): (ks: seq<string>)
    ensures |ks| <= |lines|
  {
    if lines == [] then []
    else (if IsHeading(lines[0]) then [HeadingKey(lines[0])] else []) + HeadingKeys(lines[1..])
  }

  /** `ks` followed by the elements of `xs` that are new, each at its first appearance. */
  function AddNew(ks: seq<string>, xs: seq<string>): (r: seq<string>)
    ensures forall k :: k in r <==> k in ks || k in xs
    decreases |xs|
  {
    if xs == [] then ks
    else
      assert forall k :: k in xs <==> k == xs[0] || k in xs[1..];
      AddNew(if xs[0] in ks then ks else ks + [xs[0]], xs[1..])
  }

  lemma {:induction false} HeadingKeysSkip(body: seq<string>, rest: seq<string>)
    requires !HasHeading(body)
    ensures HeadingKeys(body + rest) == HeadingKeys(rest)
    decreases |body|
  {
    if body == [] {
      assert body + rest == rest;
    } else {
      assert (body + rest)[1..] == body[1..] + rest;
      assert !IsHeading(body[0]);
      assert !HasHeading(body[1..]) by {
        forall i | 0 <= i < |body[1..]| ensures !IsHeading(body[1..][i]) {
          assert body[1..][i] == body[i + 1];
        }
      }
      HeadingKeysSkip(body[1..], rest);
    }
  }

  lemma HeadingKeysFirst(lines: seq<string>)
    requires lines != [] && IsHeading(lines[0])
    ensures HeadingKeys(lines) == [HeadingKey(lines[0])] + HeadingKeys(lines[|BodyAt(lines, 0)| + 1..])
  {
    var body := BodyAt(lines, 0);
    assert lines[1..] == body + lines[|body| + 1..];
    HeadingKeysSkip(body, lines[|body| + 1..]);
  }

  lemma SkipProseLine(lines: seq<string>)
    requires lines != [] && !IsHeading(lines[0])
    ensures HeadingKeys(lines) == HeadingKeys(lines[1..])
    ensures Sections(lines) == Sections(lines[1..])
  {
    assert [] + HeadingKeys(lines[1..]) == HeadingKeys(lines[1..]);
  }

  lemma AddNewPut(d: Document, k: string, v: Content, xs: seq<string>)
    ensures AddNew(KeyList(d), [k] + xs) == AddNew(KeyList(Put(d, k, v)), xs)
  {
    ToMapKeyList(d, k);
    assert ([k] + xs)[1..] == xs;
  }

  lemma {:induction false} AssembleOrder(d: Document, lines: seq<string>)
    ensures KeyList(Assemble(d, Sections(lines))) == AddNew(KeyList(d), HeadingKeys(lines))
    decreases |lines|
  {
    if lines == [] {
    } else if IsHeading(lines[0]) {
      var body := BodyAt(lines, 0);
      var k := HeadingKey(lines[0]);
      AssembleFirst(d, lines);
      HeadingKeysFirst(lines);
      AddNewPut(d, k, Render(body), HeadingKeys(lines[|body| + 1..]));
      AssembleOrder(Put(d, k, Render(body)), lines[|body| + 1..]);
    } else {
      SkipProseLine(lines);
      AssembleOrder(d, lines[1..]);
    }
  }

  /** The keys come in the order in which each first appears on a heading line; a
      repeated heading keeps its key where it first appeared. */
  lemma SegmentedOrder(lines: seq<string>)
    ensures KeyList(Segmented(lines)) == AddNew([], HeadingKeys(lines))
  {
    AssembleOrder([], lines);
  }

  // ----- values ------------------------------------------------------------------

  lemma {:induction false} AssembleUntouched(d: Document, lines: seq<string>, k: string)
    requires k in ToMap(d) && !HeadsWith(lines, k)
    ensures k in ToMap(Assemble(d, Sections(lines)))
    ensures ToMap(Assemble(d, Sections(lines)))[k] == ToMap(d)[k]
    decreases |lines|, 1
  {
    if lines == [] {
    } else if IsHeading(lines[0]) {
      AssembleUntouchedHeading(d, lines, k);
    } else {
      HeadsWithTail(lines, k);
      SkipProseLine(lines);
      AssembleUntouched(d, lines[1..], k);
    }
  }

  /** `AssembleUntouched` for a text whose first line is a heading. */
  lemma {:induction false} AssembleUntouchedHeading(d: Document, lines: seq<string>, k: string)
    requires lines != [] && IsHeading(lines[0])
    requires k in ToMap(d) && !HeadsWith(lines, k)
    ensures k in ToMap(Assemble(d, Sections(lines)))
    ensures ToMap(Assemble(d, Sections(lines)))[k] == ToMap(d)[k]
    decreases |lines|, 0
  {
    var s := |BodyAt(lines, 0)| + 1;
    var d' := Put(d, HeadingKey(lines[0]), Render(BodyAt(lines, 0)));
    AssembleFirst(d, lines);
    HeadsWithFirst(lines, k);
    assert HeadingKey(lines[0]) != k;
    assert k in ToMap(d') && ToMap(d')[k] == ToMap(d)[k];
    assert !HeadsWith(lines[s..], k);
    AssembleUntouched(d', lines[s..], k);
  }

  /** Dropping the first `s` lines keeps a later heading, its body and its being last. */
  lemma ShiftHeading(lines: seq<string>, s: nat, i: nat)
    requires s <= i < |lines| && IsHeading(lines[i]) && LastWithKey(lines, i)
    ensures lines[s..][i - s] == lines[i]
    ensures LastWithKey(lines[s..], i - s)
    ensures BodyAt(lines[s..], i - s) == BodyAt(lines, i)
  {
    var rest := lines[s..];
    assert rest[i - s + 1..] == lines[i + 1..];
    forall j | i - s < j < |rest| && IsHeading(rest[j])
      ensures HeadingKey(rest[j]) != HeadingKey(rest[i - s])
    {
      assert rest[j] == lines[j + s];
    }
  }

  /** Another heading line lies beyond the body of the first one. */
  lemma BeyondFirstBody(lines: seq<string>, i: nat)
    requires lines != [] && IsHeading(lines[0])
    requires 0 < i < |lines| && IsHeading(lines[i])
    ensures i > |BodyAt(lines, 0)|
  {
    var body := BodyAt(lines, 0);
    forall j | 1 <= j <= |body| ensures !IsHeading(lines[j]) {
      assert lines[j] == body[j - 1];
    }
  }

  /** When the first heading is the last with its key, no later heading has that key. */
  lemma FirstIsLast(lines: seq<string>)
    requires lines != [] && IsHeading(lines[0]) && LastWithKey(lines, 0)
    ensures !HeadsWith(lines[|BodyAt(lines, 0)| + 1..], HeadingKey(lines[0]))
  {
    var s := |BodyAt(lines, 0)| + 1;
    var rest := lines[s..];
    forall j | 0 <= j < |rest| && IsHeading(rest[j]) ensures HeadingKey(rest[j]) != HeadingKey(lines[0]) {
      assert rest[j] == lines[j + s];
    }
  }

  lemma {:induction false} AssembleValue(d: Document, lines: seq<string>, i: nat)
    requires i < |lines| && IsHeading(lines[i]) && LastWithKey(lines, i)
    ensures HeadingKey(lines[i]) in ToMap(Assemble(d, Sections(lines)))
    ensures ToMap(Assemble(d, Sections(lines)))[HeadingKey(lines[i])] == Render(BodyAt(lines, i))
    decreases |lines|, 1
  {
    if IsHeading(lines[0]) {
      AssembleValueHeading(d, lines, i);
    } else {
      SkipProseLine(lines);
      ShiftHeading(lines, 1, i);
      AssembleValue(d, lines[1..], i - 1);
    }
  }

  /** `AssembleValue` for a text whose first line is a heading. */
  lemma {:induction false} AssembleValueHeading(d: Document, lines: seq<string>, i: nat)
    requires i < |lines| && IsHeading(lines[0]) && IsHeading(lines[i]) && LastWithKey(lines, i)
    ensures HeadingKey(lines[i]) in ToMap(Assemble(d, Sections(lines)))
    ensures ToMap(Assemble(d, Sections(lines)))[HeadingKey(lines[i])] == Render(BodyAt(lines, i))
    decreases |lines|, 0
  {
    var s := |BodyAt(lines, 0)| + 1;
    var d' := Put(d, HeadingKey(lines[0]), Render(BodyAt(lines, 0)));
    AssembleFirst(d, lines);
    if i == 0 {
      FirstIsLast(lines);
      AssembleUntouched(d', lines[s..], HeadingKey(lines[0]));
    } else {
      BeyondFirstBody(lines, i);
      ShiftHeading(lines, s, i);
      AssembleValue(d', lines[s..], i - s);
    }
  }

  /** The value of a heading key is rendered from the body of the LAST heading line with
      that key (a repeated heading overwrites the earlier one): a list exactly when that
      body holds a subsection marker, its stripped prose otherwise. */
  lemma SegmentedValue(lines: seq<string>, i: nat)
    requires i < |lines| && IsHeading(lines[i]) && LastWithKey(lines, i)
    ensures HeadingKey(lines[i]) in ToMap(Segmented(lines))
    ensures var v := ToMap(Segmented(lines))[HeadingKey(lines[i])];
      && v == Render(BodyAt(lines, i))
      && (v.Subsections? <==> HasMarker(BodyAt(lines, i)))
      && (v.Plain? ==> v.text == Strip(Prose(BodyAt(lines, i))))
  {
    AssembleValue([], lines, i);
  }

  // ----- how a body becomes its content -------------------------------------------

  /** The marker lines of a body, in order: the first one, then those after it. */
  function Markers(body: seq<string>): seq<string>
    decreases |body|
  {
    var m := Span(body, NotMarker);
    if m == |body| then [] else [body[m]] + Markers(body[m + 1..])
  }

  /** `Markers` holds marker lines only, no more than the body has, and is empty
      exactly when the body has no marker line. */
  lemma {:induction false} MarkersShape(body: seq<string>)
    ensures |Markers(body)| <= |body|
    ensures forall i :: 0 <= i < |Markers(body)| ==> IsMarker(Markers(body)[i])
    ensures Markers(body) == [] <==> !HasMarker(body)
    decreases |body|
  {
    var m := Span(body, NotMarker);
    if m == |body| {
      forall i | 0 <= i < |body| ensures !IsMarker(body[i]) {
        assert NotMarker(body[i]);
      }
    } else {
      var rest := body[m + 1..];
      MarkersShape(rest);
      MarkersHead(body, m);
      assert IsMarker(body[m]);
      var ms := Markers(body);
      forall i | 0 <= i < |ms| ensures IsMarker(ms[i]) {
        if i > 0 {
          assert ms[i] == Markers(rest)[i - 1];
        }
      }
    }
  }

  /** `a` is a subsequence of `b`. */
  predicate IsSubseq(a: seq<string>, b: seq<string>)
    decreases |b|
  {
    a == [] || (b != [] && ((a[0] == b[0] && IsSubseq(a[1..], b[1..])) || IsSubseq(a, b[1..])))
  }

  lemma {:induction false} SubseqPrepend(a: seq<string>, c: seq<string>, b: seq<string>)
    requires IsSubseq(a, b)
    ensures IsSubseq(a, c + b)
    decreases |c|
  {
    if c != [] {
      SubseqPrepend(a, c[1..], b);
      assert (c + b)[1..] == c[1..] + b;
    } else {
      assert c + b == b;
    }
  }

  /** Every marker line of the body is among `Markers`. */
  lemma {:induction false} MarkersComplete(body: seq<string>, i: nat)
    requires i < |body| && IsMarker(body[i])
    ensures body[i] in Markers(body)
    decreases |body|
  {
    var m := Span(body, NotMarker);
    MarkersHead(body, m);
    var rest := body[m + 1..];
    if i > m {
      assert rest[i - m - 1] == body[i];
      MarkersComplete(rest, i - m - 1);
      assert body[i] in Markers(rest);
    } else {
      assert Markers(body)[0] == body[i];
    }
  }

  lemma {:induction false} MarkersHead(body: seq<string>, m: nat)
    requires m == Span(body, NotMarker) < |body|
    ensures Markers(body) == [body[m]] + Markers(body[m + 1..])
  {
  }

  /** In list form every marker line of the body appears verbatim among the items, in
      input order, and there are at most twice as many items as markers
      (`ItemsProseBefore` and `ItemsMarkerFollows` state, marker by marker, what stands
      before each of them). */
  lemma {:induction false} MarkersKept(body: seq<string>)
    ensures IsSubseq(Markers(body), SubsectionItems(body))
    ensures |Markers(body)| <= |SubsectionItems(body)| <= 2 * |Markers(body)|
    decreases |body|
  {
    var m := Span(body, NotMarker);
    if m < |body| {
      var x, rest := body[m], body[m + 1..];
      MarkersKept(rest);
      var first := if m == 0 then [] else [Strip(Prose(body[..m]))];
      if m == 0 { ItemsAtMarker(body); } else { ItemsAfterProse(body, m); }
      SeqAssoc(first, [x], SubsectionItems(rest));
      assert Markers(body) == [x] + Markers(rest);
      SubseqCons(x, Markers(rest), SubsectionItems(rest));
      SubseqPrepend([x] + Markers(rest), first, [x] + SubsectionItems(rest));
    }
  }

  lemma SubseqCons(x: string, a: seq<string>, b: seq<string>)
    requires IsSubseq(a, b)
    ensures IsSubseq([x] + a, [x] + b)
  {
    assert ([x] + a)[1..] == a;
    assert ([x] + b)[1..] == b;
  }

  /** The items of a body whose first marker, at line `m`, follows some prose. */
  lemma ItemsAfterProse(body: seq<string>, m: nat)
    requires m == Span(body, NotMarker) && 0 < m < |body|
    ensures SubsectionItems(body) == [Strip(Prose(body[..m]))] + [body[m]] + SubsectionItems(body[m + 1..])
  {
  }

  /** The items of a body that starts with a marker. */
  lemma ItemsAtMarker(body: seq<string>)
    requires Span(body, NotMarker) == 0 < |body|
    ensures SubsectionItems(body) == [] + [body[0]] + SubsectionItems(body[1..])
  {
  }

  /** The item that the prose before a body's first marker, at `m`, becomes, if any. */
  function Lead(body: seq<string>, m: nat): (lead: seq<string>)
    requires m <= |body|
    ensures |lead| <= 1
  {
    if m == 0 then [] else [Strip(Prose(body[..m]))]
  }

  lemma {:induction false} ItemsHead(body: seq<string>, m: nat)
    requires m == Span(body, NotMarker) < |body|
    ensures SubsectionItems(body) == Lead(body, m) + [body[m]] + SubsectionItems(body[m + 1..])
  {
    if m == 0 {
      ItemsAtMarker(body);
    } else {
      ItemsAfterProse(body, m);
    }
  }

  lemma CutAfter<T>(s: seq<T>, m: nat, k: nat)
    requires m < k <= |s|
    ensures s[..k][..m] == s[..m] && s[..k][m] == s[m] && s[..k][..m + 1] == s[..m + 1]
    ensures s[..k][m + 1..] == s[m + 1..][..k - m - 1] && s[m + 1..][k - m - 1..] == s[k..]
  {
  }

  /** Cut just after a marker line, the two parts of a body become their items each on
      their own: the prose before a marker never reaches past the marker before it. */
  lemma {:induction false} ItemsSplit(body: seq<string>, k: nat)
    requires k <= |body| && (k == 0 || IsMarker(body[k - 1]))
    ensures SubsectionItems(body) == SubsectionItems(body[..k]) + SubsectionItems(body[k..])
    decreases |body|
  {
    if k == 0 {
      assert body[..0] == [] && body[0..] == body;
    } else {
      var m := Span(body, NotMarker);
      assert m < k;
      var pre, rest := body[..k], body[m + 1..];
      var k' := k - m - 1;
      CutAfter(body, m, k);
      SpanPrefix(body, pre, m, NotMarker);
      assert k' == 0 || rest[k' - 1] == body[k - 1];
      ItemsSplit(rest, k');
      ItemsHead(body, m);
      ItemsHead(pre, m);
      var head := Lead(body, m) + [body[m]];
      assert SubsectionItems(pre) == head + SubsectionItems(rest[..k']);
      SeqAssoc(head, SubsectionItems(rest[..k']), SubsectionItems(rest[k'..]));
    }
  }

  /** A marker line at `k` that directly follows the previous marker (or starts the
      body) directly follows that marker's items: no prose item stands between them. */
  lemma ItemsMarkerFollows(body: seq<string>, k: nat)
    requires k < |body| && IsMarker(body[k]) && (k == 0 || IsMarker(body[k - 1]))
    ensures SubsectionItems(body) == SubsectionItems(body[..k]) + [body[k]] + SubsectionItems(body[k + 1..])
  {
    SpanFrom(body, k, k);
    ItemsAdjacent(body, k);
  }

  /** The lines from just after a marker (or from the start of the body, `k == 0`) up
      to the next marker line, at `m`, become ONE stripped prose item placed just before
      that marker, after the items of everything before `k`. */
  lemma ItemsProseBefore(body: seq<string>, k: nat, m: nat)
    requires k < m < |body| && IsMarker(body[m]) && (k == 0 || IsMarker(body[k - 1]))
    requires forall i :: k <= i < m ==> NotMarker(body[i])
    ensures SubsectionItems(body) == SubsectionItems(body[..k]) + [Strip(Prose(body[k..m]))] + [body[m]] + SubsectionItems(body[m + 1..])
  {
    SpanFrom(body, k, m);
    ItemsAfterLines(body, k, m);
  }

  /** The first marker line from `k` on is the one at `m`. */
  lemma SpanFrom(body: seq<string>, k: nat, m: nat)
    requires k <= m < |body| && IsMarker(body[m])
    requires forall i :: k <= i < m ==> NotMarker(body[i])
    ensures Span(body[k..], NotMarker) == m - k
  {
    var tail := body[k..];
    forall i | 0 <= i < m - k ensures NotMarker(tail[i]) {
      assert tail[i] == body[k + i];
    }
    SpanAt(tail, NotMarker, m - k);
  }

  lemma {:induction false} ItemsAdjacent(body: seq<string>, k: nat)
    requires k < |body| && (k == 0 || IsMarker(body[k - 1]))
    requires 0 == Span(body[k..], NotMarker)
    ensures SubsectionItems(body) == SubsectionItems(body[..k]) + [body[k]] + SubsectionItems(body[k + 1..])
  {
    ItemsTail(body, k, k);
    var before, x, rest := SubsectionItems(body[..k]), body[k], SubsectionItems(body[k + 1..]);
    var lead := Lead(body[k..], 0);
    assert lead == [];
    Regroup(before, lead, x, rest);
    assert before + [] == before;
  }

  lemma {:induction false} ItemsAfterLines(body: seq<string>, k: nat, m: nat)
    requires k < m < |body| && (k == 0 || IsMarker(body[k - 1]))
    requires m - k == Span(body[k..], NotMarker)
    ensures SubsectionItems(body) == SubsectionItems(body[..k]) + [Strip(Prose(body[k..m]))] + [body[m]] + SubsectionItems(body[m + 1..])
  {
    ItemsTail(body, k, m);
    var before, x, rest := SubsectionItems(body[..k]), body[m], SubsectionItems(body[m + 1..]);
    LeadOf(body, k, m);
    Regroup(before, Lead(body[k..], m - k), x, rest);
  }

  lemma {:induction false} LeadOf(body: seq<string>, k: nat, m: nat)
    requires k < m <= |body|
    ensures Lead(body[k..], m - k) == [Strip(Prose(body[k..m]))]
  {
    assert body[k..][..m - k] == body[k..m];
  }

  lemma Regroup<T>(a: seq<T>, b: seq<T>, x: T, c: seq<T>)
    ensures a + (b + [x] + c) == a + b + [x] + c
  {
  }

  lemma {:induction false} ItemsTail(body: seq<string>, k: nat, m: nat)
    requires k <= m < |body| && (k == 0 || IsMarker(body[k - 1]))
    requires m - k == Span(body[k..], NotMarker)
    ensures SubsectionItems(body) == SubsectionItems(body[..k]) + (Lead(body[k..], m - k) + [body[m]] + SubsectionItems(body[m + 1..]))
  {
    var tail := body[k..];
    ItemsHead(tail, m - k);
    assert tail[m - k] == body[m] && tail[m - k + 1..] == body[m + 1..];
    var t := Lead(tail, m - k) + [body[m]] + SubsectionItems(body[m + 1..]);
    assert SubsectionItems(tail) == t;
    ItemsSplit(body, k);
    assert SubsectionItems(body) == SubsectionItems(body[..k]) + SubsectionItems(tail);
  }

  /** A body made only of marker lines becomes exactly those lines. */
  lemma {:induction false} OnlyMarkers(body: seq<string>)
    requires forall i :: 0 <= i < |body| ==> IsMarker(body[i])
    ensures SubsectionItems(body) == body
    decreases |body|
  {
    if body != [] {
      assert Span(body, NotMarker) == 0;
      OnlyMarkers(body[1..]);
      assert body == [body[0]] + body[1..];
    }
  }

  /** Prose made of blank lines strips to the empty string. */
  lemma {:induction false} BlankProse(lines: seq<string>)
    requires forall i :: 0 <= i < |lines| ==> AllSpace(lines[i])
    ensures AllSpace(Prose(lines))
    decreases |lines|
  {
    if lines != [] {
      StripAllSpace(lines[0]);
      BlankProse(lines[1..]);
      assert Prose(lines) == "\n" + Prose(lines[1..]);
    }
  }

  /** Prose pending before a marker is pushed as ONE stripped item ahead of the marker
      line; when that prose was blank lines only, the item is the empty string. */
  lemma PendingProseItem(body: seq<string>, m: nat)
    requires 0 < m < |body| && IsMarker(body[m])
    requires forall i :: 0 <= i < m ==> NotMarker(body[i])
    ensures |SubsectionItems(body)| >= 2
    ensures SubsectionItems(body)[0] == Strip(Prose(body[..m])) && SubsectionItems(body)[1] == body[m]
    ensures (forall i :: 0 <= i < m ==> AllSpace(body[i])) ==> SubsectionItems(body)[0] == ""
  {
    PendingItems(body, m);
    BlankPrefix(body, m);
  }

  lemma PendingItems(body: seq<string>, m: nat)
    requires 0 < m < |body| && IsMarker(body[m])
    requires forall i :: 0 <= i < m ==> NotMarker(body[i])
    ensures |SubsectionItems(body)| >= 2
    ensures SubsectionItems(body)[0] == Strip(Prose(body[..m])) && SubsectionItems(body)[1] == body[m]
  {
    SpanAt(body, NotMarker, m);
    ItemsAfterProse(body, m);
  }

  lemma BlankPrefix(body: seq<string>, m: nat)
    requires m <= |body|
    ensures (forall i :: 0 <= i < m ==> AllSpace(body[i])) ==> Strip(Prose(body[..m])) == ""
  {
    if forall i :: 0 <= i < m ==> AllSpace(body[i]) {
      BlankPrefixStrip(body, m);
    }
  }

  lemma BlankPrefixStrip(body: seq<string>, m: nat)
    requires m <= |body| && forall i :: 0 <= i < m ==> AllSpace(body[i])
    ensures Strip(Prose(body[..m])) == ""
  {
    var pre := body[..m];
    forall i | 0 <= i < |pre| ensures AllSpace(pre[i]) {
      assert pre[i] == body[i];
    }
    BlankProse(pre);
    StripAllSpace(Prose(pre));
  }

  lemma SpanAppend(a: seq<string>, b: seq<string>)
    requires Span(a, NotMarker) < |a|
    ensures Span(a + b, NotMarker) == Span(a, NotMarker)
  {
    var m := Span(a, NotMarker);
    SpanPrefix(a, a + b, m, NotMarker);
  }

  lemma {:induction false} ItemsIgnoreTail(body: seq<string>, tail: seq<string>)
    requires !HasMarker(tail)
    ensures SubsectionItems(body + tail) == SubsectionItems(body)
    decreases |body|
  {
    var m := Span(body, NotMarker);
    if m == |body| {
      assert !HasMarker(body + tail) by {
        forall i | 0 <= i < |body + tail| ensures !IsMarker((body + tail)[i]) {
          if i < |body| { assert (body + tail)[i] == body[i]; } else { assert (body + tail)[i] == tail[i - |body|]; }
        }
      }
    } else {
      SpanAppend(body, tail);
      assert (body + tail)[..m] == body[..m];
      assert (body + tail)[m] == body[m];
      assert (body + tail)[m + 1..] == body[m + 1..] + tail;
      ItemsIgnoreTail(body[m + 1..], tail);
    }
  }

  /** Prose after the last marker is not stored: appending marker-free lines to a body
      that has a marker leaves its content unchanged. */
  lemma TrailingProseLost(body: seq<string>, tail: seq<string>)
    requires HasMarker(body) && !HasMarker(tail)
    ensures Render(body + tail) == Render(body)
  {
    ItemsIgnoreTail(body, tail);
    var i :| 0 <= i < |body| && IsMarker(body[i]);
    assert (body + tail)[i] == body[i];
  }
}
