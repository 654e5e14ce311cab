/**
  The tagging step: every fragment of a segmented label becomes one table row
  carrying its heading (numbering removed), the heading's importance (0 forbidden,
  1 warned, 2 useful information) and the ids of the topics whose patterns match
  the heading or the fragment.

  Keyword tables are dicts from a name to a list of keywords, kept as association
  lists. The names "forbid" and "warning" hold substring keywords for the
  importance; every other name is a topic, whose id is its position among the
  topics. Pattern search (`re.search` with `re.IGNORECASE`) is a parameter.
 */
module Tagger {
  import opened Text
  import opened Dict
  import opened Segmenter

  type Keywords = seq<(string, seq<string>)>

  /** `search(pattern, text)`: the pattern matches somewhere in the text, ignoring case. */
  type Matcher = (string, string) -> bool

  /** One row of the table: `Section`, `Content`, `Section Importance`, `Topics`. */
  datatype Row = Row(section: string, content: string, importance: nat, topics: seq<nat>)

  // ----- numbering prefixes -------------------------------------------------

  predicate IsNumberMark(c: char) {
    c == '.' || c == ')'
  }

  /** A whole numbering token `\d+[.)]\s*`: digits, '.' or ')', then whitespace. */
  predicate IsNumbering(p: string) {
    var d := Span(p, IsDigit);
    0 < d < |p| && IsNumberMark(p[d]) && AllSpace(p[d + 1..])
  }

  /** `s` starts with digits followed by '.' or ')'. */
  predicate Numbered(s: string) {
    var d := Span(s, IsDigit);
    0 < d < |s| && IsNumberMark(s[d])
  }

  /** `re.sub(r'^\d+[.)]\s*', '', s)`: the pattern is anchored at the start of the
      string, so at most one token is removed, with all whitespace after it. */
  function StripNumbering(s: string): (r: string)
    ensures |r| <= |s| && s == s[..|s| - |r|] + r
    ensures r == s <==> !Numbered(s)
    ensures r != s ==> IsNumbering(s[..|s| - |r|]) && (r == [] || !IsSpace(r[0]))
  {
    if Numbered(s) then
      var d := Span(s, IsDigit);
      var w := Span(s[d + 1..], IsSpace);
      NumberingToken(s, d, w);
      NumberingRest(s, d, w);
      s[d + 1 + w..]
    else
      s
  }

  /** The digits, the mark and the whitespace run after it form one numbering token. */
  lemma NumberingToken(s: string, d: nat, w: nat)
    requires Numbered(s) && d == Span(s, IsDigit) && w == Span(s[d + 1..], IsSpace)
    ensures IsNumbering(s[..d + 1 + w])
  {
    var p := s[..d + 1 + w];
    assert p[d + 1..] == s[d + 1..][..w];
    SpanPrefix(s, p, d, IsDigit);
  }

  /** What follows the token does not start with whitespace. */
  lemma NumberingRest(s: string, d: nat, w: nat)
    requires Numbered(s) && d == Span(s, IsDigit) && w == Span(s[d + 1..], IsSpace)
    ensures s[d + 1 + w..] == [] || !IsSpace(s[d + 1 + w..][0])
  {
    if d + 1 + w < |s| {
      assert s[d + 1 + w..][0] == s[d + 1..][w];
    }
  }

  lemma {:induction false} SpanSpaces(a: string, b: string)
    requires AllSpace(a) && (b == [] || !IsSpace(b[0]))
    ensures Span(a + b, IsSpace) == |a|
    decreases |a|
  {
    if a != [] {
      assert (a + b)[1..] == a[1..] + b;
      SpanSpaces(a[1..], b);
    } else {
      assert a + b == b;
    }
  }

  /** Stripping undoes prepending a numbering token to text that does not start with
      whitespace. */
  lemma StripNumberingPrepended(p: string, r: string)
    requires IsNumbering(p) && (r == [] || !IsSpace(r[0]))
    ensures StripNumbering(p + r) == r
  {
    var d := Span(p, IsDigit);
    var s := p + r;
    assert s[..d + 1] == p[..d + 1];
    SpanPrefix(p, s, d, IsDigit);
    assert s[d + 1..] == p[d + 1..] + r;
    SpanSpaces(p[d + 1..], r);
    assert s[d + 1 + |p[d + 1..]|..] == r;
  }

  /** Only the first token goes: "1. 2) 용법" keeps its "2) ". */
  lemma StripNumberingOnce()
    ensures StripNumbering("1. 2) 용법") == "2) 용법"
  {
    assert Span("1. ", IsDigit) == 1;
    StripNumberingPrepended("1. ", "2) 용법");
    assert "1. " + "2) 용법" == "1. 2) 용법";
  }

  // ----- importance --------------------------------------------------------------

  /** `any(keyword in title for keyword in keys)`. */
  function AnyIn(keys: seq<string>, title: string): (b: bool)
    ensures b <==> exists i :: 0 <= i < |keys| && Contains(title, keys[i])
  {
    if keys == [] then false
    else
      assert forall i :: 0 < i < |keys| ==> keys[i] == keys[1..][i - 1];
      Contains(title, keys[0]) || AnyIn(keys[1..], title)
  }

  /** The importance of a heading: 0 when it contains a forbid keyword (this wins),
      1 when it contains a warning keyword and no forbid keyword, 2 otherwise. */
  function TagImportance(title: string, forbid: seq<string>, warning: seq<string>): (r: nat)
    ensures r <= 2
    ensures r == 0 <==> exists i :: 0 <= i < |forbid| && Contains(title, forbid[i])
    ensures r == 1 <==> (forall i :: 0 <= i < |forbid| ==> !Contains(title, forbid[i]))
                        && (exists i :: 0 <= i < |warning| && Contains(title, warning[i]))
  {
    if AnyIn(forbid, title) then 0 else if AnyIn(warning, title) then 1 else 2
  }

  // ----- topics --------------------------------------------------------------------

  /** `any(re.search(word, text, re.IGNORECASE) for word in patterns)`. */
  function AnyMatch(patterns: seq<string>, text: string, search: Matcher): (b: bool)
    ensures b <==> exists i :: 0 <= i < |patterns| && search(patterns[i], text)
  {
    if patterns == [] then false
    else
      assert forall i :: 0 < i < |patterns| ==> patterns[i] == patterns[1..][i - 1];
      search(patterns[0], text) || AnyMatch(patterns[1..], text, search)
  }

  /** `tag_topic`: the category when one of the patterns matches, `None` otherwise. */
  function TagTopic(text: string, patterns: seq<string>, category: nat, search: Matcher): (tag: Option<nat>)
    ensures tag.Some? <==> exists i :: 0 <= i < |patterns| && search(patterns[i], text)
    ensures tag.Some? ==> tag.value == category
  {
    if AnyMatch(patterns, text, search) then Some(category) else None
  }

  /** Python's `if tag:`: `None` and the id 0 are both false. */
  predicate Truthy(tag: Option<nat>) {
    tag.Some? && tag.value != 0
  }

  predicate IsImportanceKey(k: string) {
    k == "forbid" || k == "warning"
  }

  /** The topic entries of a keyword table: every entry but "forbid" and "warning",
      in table order. */
  function Topics(kw: Keywords): (ts: Keywords)
    ensures |ts| <= |kw|
    ensures forall i :: 0 <= i < |ts| ==> !IsImportanceKey(ts[i].0) && ts[i] in kw
    ensures forall i :: 0 <= i < |kw| && !IsImportanceKey(kw[i].0) ==> kw[i] in ts
  {
    if kw == [] then []
    else
      var front := kw[..|kw| - 1];
      assert forall i :: 0 <= i < |kw| - 1 ==> kw[i] == front[i];
      Topics(front) + (if IsImportanceKey(kw[|kw| - 1].0) then [] else [kw[|kw| - 1]])
  }

  lemma {:induction false} TopicsAppend(a: Keywords, b: Keywords)
    ensures Topics(a + b) == Topics(a) + Topics(b)
    decreases |b|
  {
    if b == [] {
      assert a + b == a;
    } else {
      var n := |b| - 1;
      assert (a + b)[..|a + b| - 1] == a + b[..n];
      TopicsAppend(a, b[..n]);
    }
  }

  lemma {:induction false} TopicsUnique(kw: Keywords)
    requires UniqueKeys(kw)
    ensures UniqueKeys(Topics(kw))
  {
    if kw != [] {
      var front, last := kw[..|kw| - 1], kw[|kw| - 1];
      TopicsUnique(front);
      var ts := Topics(front);
      forall i | 0 <= i < |ts| ensures ts[i].0 != last.0 {
        var j :| 0 <= j < |front| && front[j] == ts[i];
        assert front[j] == kw[j];
      }
    }
  }

  /** `topic_tag_int`: every topic name with its position among the topics. */
  function TopicIds(ts: Keywords): (ids: seq<(string, nat)>)
    ensures |ids| == |ts|
  {
    seq(|ts|, i requires 0 <= i < |ts| => (ts[i].0, i))
  }

  /** The topic ids are 0 .. n-1, given in table order to every entry that is not an
      importance list, and to nothing else. */
  lemma TopicIdsMeaning(kw: Keywords)
    requires UniqueKeys(kw)
    ensures var ts := Topics(kw);
      && KeyList(TopicIds(ts)) == KeyList(ts)
      && (forall i :: 0 <= i < |ts| ==> ToMap(TopicIds(ts))[ts[i].0] == i)
      && (forall k :: k in ToMap(TopicIds(ts)) <==> k in ToMap(kw) && !IsImportanceKey(k))
  {
    var ts := Topics(kw);
    TopicsUnique(kw);
    TopicIdsValues(ts);
    forall k ensures k in ToMap(TopicIds(ts)) <==> k in ToMap(kw) && !IsImportanceKey(k) {
      TopicIdsNamed(kw, k);
      TopicNamesNumbered(kw, k);
    }
  }

  lemma TopicIdsValues(ts: Keywords)
    requires UniqueKeys(ts)
    ensures KeyList(TopicIds(ts)) == KeyList(ts)
    ensures forall i :: 0 <= i < |ts| ==> ToMap(TopicIds(ts))[ts[i].0] == i
  {
    var ids := TopicIds(ts);
    assert forall i :: 0 <= i < |ids| ==> ids[i] == (ts[i].0, i);
    assert UniqueKeys(ids);
    ToMapUnique(ids);
    assert KeyList(ids) == KeyList(ts);
  }

  lemma TopicIdsNamed(kw: Keywords, k: string)
    ensures k in ToMap(TopicIds(Topics(kw))) ==> k in ToMap(kw) && !IsImportanceKey(k)
  {
    var ts := Topics(kw);
    var ids := TopicIds(ts);
    if k in ToMap(ids) {
      ToMapKeys(ids, k);
      var i :| 0 <= i < |ids| && ids[i].0 == k;
      var j :| 0 <= j < |kw| && kw[j] == ts[i];
    }
  }

  lemma TopicNamesNumbered(kw: Keywords, k: string)
    ensures k in ToMap(kw) && !IsImportanceKey(k) ==> k in ToMap(TopicIds(Topics(kw)))
  {
    var ts := Topics(kw);
    var ids := TopicIds(ts);
    if k in ToMap(kw) && !IsImportanceKey(k) {
      ToMapKeys(kw, k);
      var j :| 0 <= j < |kw| && kw[j].0 == k;
      var i :| 0 <= i < |ts| && ts[i] == kw[j];
      assert ids[i].0 == k;
    }
  }

  /** The ids, in increasing order, of the topics below `n` that are not in `skip`,
      are not 0, and have a pattern matching `text`. */
  function MatchIds(text: string, ts: Keywords, skip: seq<nat>, search: Matcher, n: nat): (ids: seq<nat>)
    requires n <= |ts|
    ensures forall k: nat :: k in ids <==> k < n && k != 0 && k !in skip && AnyMatch(ts[k].1, text, search)
    ensures forall a :: 0 <= a < |ids| ==> ids[a] < n
    ensures forall a, b :: 0 <= a < b < |ids| ==> ids[a] < ids[b]
  {
    if n == 0 then []
    else
      var front := MatchIds(text, ts, skip, search, n - 1);
      if n - 1 !in skip && Truthy(TagTopic(text, ts[n - 1].1, n - 1, search)) then front + [n - 1] else front
  }

  // ----- the table ---------------------------------------------------------------------

  /** Both importance lists are present (`importance["forbid"]` raises KeyError otherwise). */
  predicate Configured(kw: Keywords) {
    "forbid" in ToMap(kw) && "warning" in ToMap(kw)
  }

  /** The fragments of a content: the one string, or every item of the list. */
  function Fragments(c: Content): (fs: seq<string>)
    ensures |fs| == if c.Plain? then 1 else |c.items|
  {
    match c
    case Plain(text) => [text]
    case Subsections(items) => items
  }

  /** The row of one fragment: its numbering is removed, and it gets the heading's ids
      followed by the ids of the topics it matches that the heading did not. */
  function RowFor(title: string, importance: nat, head: seq<nat>, fragment: string, ts: Keywords, search: Matcher): Row {
    var content := StripNumbering(fragment);
    Row(title, content, importance, head + MatchIds(content, ts, head, search, |ts|))
  }

  /** The rows of one heading, one per fragment, in order. */
  function EntryRows(heading: string, content: Content, forbid: seq<string>, warning: seq<string>,
                     ts: Keywords, search: Matcher): (rows: seq<Row>)
    ensures |rows| == |Fragments(content)|
  {
    var title := StripNumbering(heading);
    var importance := TagImportance(title, forbid, warning);
    var head := MatchIds(title, ts, [], search, |ts|);
    var fs := Fragments(content);
    seq(|fs|, j requires 0 <= j < |fs| => RowFor(title, importance, head, fs[j], ts, search))
  }

  /** The rows of one entry of the document. */
  function HeadingRows(entry: (string, Content), kw: Keywords, search: Matcher): seq<Row>
    requires Configured(kw)
  {
    EntryRows(entry.0, entry.1, ToMap(kw)["forbid"], ToMap(kw)["warning"], Topics(kw), search)
  }

  /** The rows of a whole document, heading by heading. */
  function Table(doc: Document, kw: Keywords, search: Matcher): (rows: seq<Row>)
    requires doc != [] ==> Configured(kw)
  {
    if doc == [] then []
    else Table(doc[..|doc| - 1], kw, search) + HeadingRows(doc[|doc| - 1], kw, search)
  }

  /** Number of fragments in a document. */
  function FragmentCount(doc: Document): nat {
    if doc == [] then 0 else FragmentCount(doc[..|doc| - 1]) + |Fragments(doc[|doc| - 1].1)|
  }

  // ----- what the table promises ----------------------------------------------------------

  lemma TableLast(doc: Document, kw: Keywords, search: Matcher)
    requires doc != [] && Configured(kw)
    ensures Table(doc, kw, search) == Table(doc[..|doc| - 1], kw, search) + HeadingRows(doc[|doc| - 1], kw, search)
  {
  }

  /** One more heading of the document adds that heading's rows. */
  lemma TableStep(doc: Document, e: nat, kw: Keywords, search: Matcher)
    requires e < |doc| && Configured(kw)
    ensures Table(doc[..e + 1], kw, search) == Table(doc[..e], kw, search)
      + EntryRows(doc[e].0, doc[e].1, ToMap(kw)["forbid"], ToMap(kw)["warning"], Topics(kw), search)
  {
    assert doc[..e + 1][..e] == doc[..e];
    TableLast(doc[..e + 1], kw, search);
  }

  /** A document is tabulated heading by heading: the rows of a concatenation are the
      rows of its parts. */
  lemma {:induction false} TableAppend(a: Document, b: Document, kw: Keywords, search: Matcher)
    requires a + b != [] ==> Configured(kw)
    ensures Table(a + b, kw, search) == Table(a, kw, search) + Table(b, kw, search)
    decreases |b|
  {
    if b == [] {
      assert a + b == a;
    } else {
      var n := |b| - 1;
      TableSplitLast(a, b, kw, search);
      TableAppend(a, b[..n], kw, search);
      TableLast(b, kw, search);
      SeqAssoc(Table(a, kw, search), Table(b[..n], kw, search), HeadingRows(b[|b| - 1], kw, search));
    }
  }

  lemma TableSplitLast(a: Document, b: Document, kw: Keywords, search: Matcher)
    requires b != [] && Configured(kw)
    ensures Table(a + b, kw, search) == Table(a + b[..|b| - 1], kw, search) + HeadingRows(b[|b| - 1], kw, search)
  {
    DropLast(a, b);
    TableLast(a + b, kw, search);
  }

  lemma DropLast<T>(a: seq<T>, b: seq<T>)
    requires b != []
    ensures (a + b)[..|a + b| - 1] == a + b[..|b| - 1] && (a + b)[|a + b| - 1] == b[|b| - 1]
  {
  }

  /** One row per list item and exactly one per string content. */
  lemma {:induction false} TableLength(doc: Document, kw: Keywords, search: Matcher)
    requires doc != [] ==> Configured(kw)
    ensures |Table(doc, kw, search)| == FragmentCount(doc)
  {
    if doc != [] {
      TableLength(doc[..|doc| - 1], kw, search);
    }
  }

  /** The topics of a fragment's row: exactly the non-zero ids whose patterns match the
      heading or the fragment, heading matches first, no id twice. */
  lemma RowTopics(title: string, importance: nat, fragment: string, ts: Keywords, search: Matcher)
    ensures var head := MatchIds(title, ts, [], search, |ts|);
      var r := RowFor(title, importance, head, fragment, ts, search);
      && r.topics[..|head|] == head
      && (forall k: nat :: k in r.topics <==>
            0 < k < |ts| && (AnyMatch(ts[k].1, title, search) || AnyMatch(ts[k].1, r.content, search)))
      && (forall a, b :: 0 <= a < b < |r.topics| ==> r.topics[a] != r.topics[b])
  {
    var head := MatchIds(title, ts, [], search, |ts|);
    var r := RowFor(title, importance, head, fragment, ts, search);
    var rest := MatchIds(r.content, ts, head, search, |ts|);
    assert r.topics == head + rest;
    forall a, b | 0 <= a < b < |r.topics| ensures r.topics[a] != r.topics[b] {
      if b >= |head| && a < |head| {
        assert r.topics[b] == rest[b - |head|];
        assert r.topics[a] in head;
      } else if a >= |head| {
        assert r.topics[a] == rest[a - |head|] && r.topics[b] == rest[b - |head|];
      }
    }
  }

  /** Every row of a heading carries the heading without its numbering, the heading's
      importance, and one fragment (numbering removed), in fragment order. */
  lemma EntryRowsMeaning(heading: string, content: Content, forbid: seq<string>, warning: seq<string>,
                         ts: Keywords, search: Matcher, j: nat)
    requires j < |Fragments(content)|
    ensures var r := EntryRows(heading, content, forbid, warning, ts, search)[j];
      && r.section == StripNumbering(heading)
      && r.importance == TagImportance(r.section, forbid, warning)
      && r.importance <= 2
      && r.content == StripNumbering(Fragments(content)[j])
      && (forall k: nat :: k in r.topics <==>
            0 < k < |ts| && (AnyMatch(ts[k].1, r.section, search) || AnyMatch(ts[k].1, r.content, search)))
      && (forall a, b :: 0 <= a < b < |r.topics| ==> r.topics[a] != r.topics[b])
  {
    var title := StripNumbering(heading);
    RowTopics(title, TagImportance(title, forbid, warning), Fragments(content)[j], ts, search);
  }

  /** Numbering the next topic: its name is new, so it is appended. */
  lemma TopicIdsNext(ts: Keywords, i: nat)
    requires UniqueKeys(ts) && i < |ts|
    ensures ts[i].0 !in ToMap(TopicIds(ts[..i]))
    ensures TopicIds(ts[..i + 1]) == TopicIds(ts[..i]) + [(ts[i].0, i)]
  {
    var ids := TopicIds(ts[..i]);
    forall j | 0 <= j < |ids| ensures ids[j].0 != ts[i].0 {
      assert ts[..i][j] == ts[j];
    }
    ToMapAbsent(ids, ts[i].0);
  }

  // ----- make_df ----------------------------------------------------------------------------

  /** The topic ids of `text` (the ids in `skip` are not searched again). */
  method CollectTags(text: string, topics: Keywords, topicTagInt: seq<(string, nat)>, skip: seq<nat>, search: Matcher)
    returns (tags: seq<nat>)
    requires UniqueKeys(topics) && topicTagInt == TopicIds(topics)
    ensures tags == MatchIds(text, topics, skip, search, |topics|)
  {
    ToMapUnique(topicTagInt);
    tags := [];
    for j := 0 to |topics|
      invariant tags == MatchIds(text, topics, skip, search, j)
    {
      var (topic, patterns) := topics[j];
      assert topicTagInt[j] == (topic, j);
      var id := ToMap(topicTagInt)[topic];
      if id !in skip {
        var tag := TagTopic(text, patterns, id, search);
        if Truthy(tag) {
          tags := tags + [tag.value];
        }
      }
    }
  }

  /** `topic_tag_int`: number the topics 0, 1, ... in table order. */
  method NumberTopics(topics: Keywords) returns (topicTagInt: seq<(string, nat)>)
    requires UniqueKeys(topics)
    ensures topicTagInt == TopicIds(topics)
  {
    topicTagInt := [];
    for i := 0 to |topics|
      invariant topicTagInt == TopicIds(topics[..i])
    {
      var topic := topics[i].0;
      TopicIdsNext(topics, i);
      var id: nat := i;
      topicTagInt := Put(topicTagInt, topic, id);
    }
    assert topics[..|topics|] == topics;
  }

  /** The row of one fragment, as both content branches of `make_df` build it: strip the
      numbering, search the topics the heading did not match, append the row. */
  method FragmentRow(title: string, importance: nat, topicTags: seq<nat>, fragment: string,
                     topics: Keywords, topicTagInt: seq<(string, nat)>, search: Matcher)
    returns (row: Row)
    requires UniqueKeys(topics) && topicTagInt == TopicIds(topics)
    ensures row == RowFor(title, importance, topicTags, fragment, topics, search)
  {
    var sub := StripNumbering(fragment);
    var subTopicTags := CollectTags(sub, topics, topicTagInt, topicTags, search);
    row := Row(title, sub, importance, topicTags + subTopicTags);
  }

  /** One pass of `make_df`'s loop over the document: the heading's numbering is
      removed, its importance and topic ids computed, and a row made per fragment. */
  method TagEntry(sectionTitle: string, content: Content, forbid: seq<string>, warning: seq<string>,
                  topics: Keywords, topicTagInt: seq<(string, nat)>, search: Matcher)
    returns (entryRows: seq<Row>)
    requires UniqueKeys(topics) && topicTagInt == TopicIds(topics)
    ensures entryRows == EntryRows(sectionTitle, content, forbid, warning, topics, search)
  {
    var title := StripNumbering(sectionTitle);
    var sectionImportance := TagImportance(title, forbid, warning);
    var topicTags := CollectTags(title, topics, topicTagInt, [], search);
    ghost var entry := EntryRows(sectionTitle, content, forbid, warning, topics, search);
    entryRows := [];
    match content
    case Subsections(items) =>
      for k := 0 to |items|
        invariant entryRows == entry[..k]
      {
        var row := FragmentRow(title, sectionImportance, topicTags, items[k], topics, topicTagInt, search);
        TakeOneMore(entry, k);
        entryRows := entryRows + [row];
      }
      assert entry[..|items|] == entry;
    case Plain(text) =>
      var row := FragmentRow(title, sectionImportance, topicTags, text, topics, topicTagInt, search);
      entryRows := [row];
  }

  /** `make_df`: the rows of every fragment of the document, and the topic ids. */
  method MakeTable(doc: Document, keywords: Keywords, search: Matcher)
    returns (rows: seq<Row>, topicTagInt: seq<(string, nat)>)
    requires UniqueKeys(keywords)
    requires doc != [] ==> Configured(keywords)
    ensures rows == Table(doc, keywords, search)
    ensures topicTagInt == TopicIds(Topics(keywords))
  {
    var importance: map<string, seq<string>> := map[];
    if "forbid" in ToMap(keywords) {
      importance := importance["forbid" := ToMap(keywords)["forbid"]];
    }
    if "warning" in ToMap(keywords) {
      importance := importance["warning" := ToMap(keywords)["warning"]];
    }
    var topics := Topics(keywords);
    TopicsUnique(keywords);
    topicTagInt := NumberTopics(topics);

    rows := [];
    for e := 0 to |doc|
      invariant rows == Table(doc[..e], keywords, search)
    {
      TableStep(doc, e, keywords, search);
      assert importance["forbid"] == ToMap(keywords)["forbid"] && importance["warning"] == ToMap(keywords)["warning"];
      var (sectionTitle, content) := doc[e];
      var entryRows := TagEntry(sectionTitle, content, importance["forbid"], importance["warning"], topics, topicTagInt, search);
      rows := rows + entryRows;
    }
    assert doc[..|doc|] == doc;
  }
}
