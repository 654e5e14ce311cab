# Medicine label segmentation and tagging, modelled in Dafny

This project models the two analysis steps of `Software/hd_medi_data.py`:

- `split_sections` turns the newline-separated guideline text of one medicine
  into an ordered dict. Its keys are numbered headings ("1. 경고"), cut at the
  first colon. Each value is the heading's prose, stripped, or the list of its
  subsection items when the heading's body holds marker lines ("1) ", "① ", "가. ").
- `make_df`, with its helpers `tag_importance` and `tag_topic`, turns that dict
  into table rows, one per fragment. A row holds the heading with its numbering
  removed, the heading's importance (0 forbidden, 1 warned, 2 useful
  information), the fragment, and the ids of the topics whose patterns match
  the heading or the fragment. The topic with id 0 is never listed, even when
  it matches, because the code keeps a tag only when it is truthy (`if tag:` at
  lines 158, 168 and 178). It also returns the topic ids.

Modules:

- `Text` (text.dfy): Python's `str.strip()`, `str.split('\n')` and `k in s`, with
  the whitespace and digit classes restricted to ASCII.
- `Dict` (dict.dfy): an insertion-ordered dict as an association list. `Put` is
  `d[k] = v`, `ToMap` gives its meaning as a map and `KeyList` its key order.
- `Segmenter` (segmenter.dfy): the line patterns, and a declarative definition
  `Segmented`: cut the lines into heading sections, render each body, store
  the sections in order. A ghost replay of the source's loop (`Step`, `Run`) is
  proved equal to it. The method `SplitSections` has the source's loop and
  state variables and is proved to return `Segmented`.
- `SegmenterFacts` (segmenter_facts.dfy): what the segmented dict promises.
  This covers its keys, their order, the value each key ends with, and how a
  body becomes a list.
- `Tagger` (tagger.dfy): numbering removal, importance, topic matching, topic
  ids, and the table as a function `Table`. The method `MakeTable` runs the
  loops of `make_df` and is proved to return `Table`.
- `Scenarios` (scenarios.dfy): one label run through both steps.

Modelling choices:

- Text that is not a string is `None` of an `Option<string>`.
- The pandas DataFrame is the sequence of its rows (`Tagger.Row`).
- `re.search(pattern, text, re.IGNORECASE)` is a parameter `search` of type
  `Matcher`. The properties about topics hold for every matcher.
- `make_df` looks up `importance["forbid"]` and `importance["warning"]` for each
  heading. The lookup raises `KeyError` when a list is missing and the dict has
  at least one entry. This is the precondition `doc != [] ==> Configured(keywords)`.
- The loops of `make_df` are split over four methods so that each proof stays
  small: `NumberTopics` (lines 147-148), `CollectTags` (one topic loop),
  `FragmentRow` (the code both content branches share) and `TagEntry` (one pass
  of the loop over the dict).

Where the code behaves differently from what one might expect of this pipeline,
the model follows the code:

- One might expect a missing "forbid" or "warning" list to count as empty.
  The code raises `KeyError` at line 153 (see above).
- One might expect the heading "1. 경고" with the forbid keyword
  "복용하지 마십시오" in its body to come out with importance 0. The code computes
  importance from the heading alone, so the row gets 2 (`Scenarios.LabelTable`).
- One might expect the content to be recoverable from the dict.
  The code drops prose that follows the last marker of a heading
  (`SegmenterFacts.TrailingProseLost`).
- One might expect only trailing whitespace to be trimmed from each line. The
  code calls `strip()`, which trims both ends.
- One might expect every matching topic's id to be listed in a row. The code
  never lists id 0, the first topic, because of `if tag:` at lines 158, 168 and
  178 (`Tagger.MatchIds`, `Tagger.RowTopics`).

## Model

| member | source | states |
|---|---|---|
| Text.StripShape | Software/hd_medi_data.py:65 | the result has no whitespace at either end, and the input is the result with only whitespace before and after it |
| Text.StripUnique | Software/hd_medi_data.py:65 | those two properties determine the stripped string: any trimmed string that the input pads with whitespace is `Strip` of it |
| Text.StripAllSpace | Software/hd_medi_data.py:51 | a string of whitespace only strips to the empty string |
| Text.SplitLines | Software/hd_medi_data.py:35 | splitting gives at least one piece, and no piece holds a line feed |
| Text.JoinSplitLines | Software/hd_medi_data.py:35 | joining the pieces with line feeds gives back the text |
| Text.SplitJoinLines | Software/hd_medi_data.py:35 | splitting the join of lines without line feeds gives back those lines |
| Text.ContainsAt | Software/hd_medi_data.py:93-95 | `k in s` holds exactly when `k` occurs in `s` at some position |
| Dict.Put | Software/hd_medi_data.py:49 | after `d[k] = v` the dict maps `k` to `v` and every other key as before; an existing key keeps its place, a new key goes last; unique keys stay unique |
| Segmenter.HeadingKeyShape | Software/hd_medi_data.py:27 | the key of a heading line is itself a heading, is a prefix of the line without a colon, and stops just before the first colon |
| Segmenter.Render | Software/hd_medi_data.py:48-51 | a body becomes a list exactly when it holds a marker line, and the list is never empty; otherwise it becomes its stripped prose |
| Segmenter.Sections | Software/hd_medi_data.py:41-65 | every section starts with a heading line, and its body holds no heading line |
| Segmenter.ScopeRunItems | Software/hd_medi_data.py:56-65 | after a heading's body the open scope holds the prose after its last marker, and the items are the prose before each marker followed by that marker |
| Segmenter.CloseRender | Software/hd_medi_data.py:68-72 | closing the scope left by a body stores exactly the rendering of that body |
| Segmenter.RunFlush | Software/hd_medi_data.py:41-72 | from any loop state, running the rest of the lines and saving the open heading gives what remains to be assembled from that state |
| Segmenter.RunIsSegmented | Software/hd_medi_data.py:41-72 | the loop run over all lines, followed by the final save, yields the declarative `Segmented` |
| Segmenter.SaveSection | Software/hd_medi_data.py:68-72 | the open heading, if any, is saved exactly as the loop state's flush says: its item list when it has items, its stripped prose otherwise; with no open heading the dict is unchanged |
| Segmenter.SplitSections | Software/hd_medi_data.py:8-74 | input that is not a string gives the empty dict; otherwise the result is `Segmented` of the text's lines |
| SegmenterFacts.SectionsCover | Software/hd_medi_data.py:41-53 | the sections, each heading line followed by its body, are exactly the lines from the first heading line on, in order |
| SegmenterFacts.PreambleIgnored | Software/hd_medi_data.py:63-65 | lines before the first heading do not change the result |
| SegmenterFacts.NoHeadingEmpty | Software/hd_medi_data.py:45-72 | a text without a heading line gives the empty dict |
| SegmenterFacts.SegmentedKeys | Software/hd_medi_data.py:45-52 | the keys are exactly the keys of the heading lines, each stored once |
| SegmenterFacts.SegmentedOrder | Software/hd_medi_data.py:49-52 | keys come in the order in which they first appear on heading lines; a repeated heading keeps its first place |
| SegmenterFacts.SegmentedValue | Software/hd_medi_data.py:45-54 | a key's value comes from the body of the last heading line with that key; it is a list exactly when that body has a marker line, and otherwise that body's stripped prose |
| SegmenterFacts.MarkersShape | Software/hd_medi_data.py:33 | the marker lines of a body are all markers, and there are none exactly when the body holds no marker line |
| SegmenterFacts.MarkersComplete | Software/hd_medi_data.py:60 | every marker line of a body is among its markers |
| SegmenterFacts.MarkersKept | Software/hd_medi_data.py:56-61 | the markers are a subsequence of the items, verbatim and in input order, and there are at most twice as many items as markers |
| SegmenterFacts.ItemsSplit | Software/hd_medi_data.py:56-61 | cut just after any marker line, the two parts of a body become their items independently, and the items of the whole are those of the first part followed by those of the second |
| SegmenterFacts.ItemsMarkerFollows | Software/hd_medi_data.py:56-61 | a marker line with no line between it and the previous marker (or the start of the body) comes right after the items before it: no prose item is pushed |
| SegmenterFacts.ItemsProseBefore | Software/hd_medi_data.py:56-61 | for every marker line, the lines since the previous marker (or the start of the body) become exactly one stripped item placed just before that marker, after the items of everything earlier |
| SegmenterFacts.OnlyMarkers | Software/hd_medi_data.py:56-61 | a body made of marker lines only becomes exactly those lines |
| SegmenterFacts.BlankProse | Software/hd_medi_data.py:65 | prose gathered from blank lines is whitespace only |
| SegmenterFacts.PendingProseItem | Software/hd_medi_data.py:58-60 | prose pending before a marker becomes one stripped item just before the marker line, and that item is the empty string when the prose was blank lines only |
| SegmenterFacts.TrailingProseLost | Software/hd_medi_data.py:68-72 | once a body has a marker, adding lines without a marker after it does not change the stored content |
| Tagger.StripNumbering | Software/hd_medi_data.py:145 | the result is a suffix of the input; it equals the input exactly when the input does not start with digits followed by '.' or ')'; otherwise what was removed is one whole numbering token, and the rest does not start with whitespace |
| Tagger.StripNumberingPrepended | Software/hd_medi_data.py:145 | prepending a numbering token to text that does not start with whitespace, then stripping, gives back the text |
| Tagger.StripNumberingOnce | Software/hd_medi_data.py:152 | only one token is removed: "1. 2) 용법" becomes "2) 용법" |
| Tagger.AnyIn | Software/hd_medi_data.py:93 | true exactly when some keyword occurs in the title |
| Tagger.TagImportance | Software/hd_medi_data.py:77-98 | the importance is at most 2; it is 0 exactly when a forbid keyword occurs in the title, which wins; 1 exactly when a warning keyword occurs and no forbid keyword does; 2 otherwise |
| Tagger.AnyMatch | Software/hd_medi_data.py:113 | true exactly when some pattern matches the text |
| Tagger.TagTopic | Software/hd_medi_data.py:101-115 | the category when some pattern matches the text, `None` otherwise |
| Tagger.Topics | Software/hd_medi_data.py:143 | the topics are the entries of the keyword table other than "forbid" and "warning", and all of those entries |
| Tagger.TopicsAppend | Software/hd_medi_data.py:143 | the topics keep the table order |
| Tagger.TopicsUnique | Software/hd_medi_data.py:143 | topic names are unique |
| Tagger.TopicIdsMeaning | Software/hd_medi_data.py:146-148 | the topic ids are 0 .. n-1 given in table order, and the names that get one are exactly the table's names other than "forbid" and "warning" |
| Tagger.NumberTopics | Software/hd_medi_data.py:146-148 | the loop builds the topic ids |
| Tagger.MatchIds | Software/hd_medi_data.py:165-169 | the ids found are, in increasing order, exactly the ids that are not 0, not already found for the heading, and whose patterns match the text |
| Tagger.CollectTags | Software/hd_medi_data.py:156-159 | the loop over the topics collects those ids |
| Tagger.FragmentRow | Software/hd_medi_data.py:162-171 | a fragment's row holds the fragment without numbering, and the heading's ids followed by the fragment's new ids |
| Tagger.TagEntry | Software/hd_medi_data.py:151-182 | one pass over a heading yields that heading's rows |
| Tagger.MakeTable | Software/hd_medi_data.py:118-185 | the rows are `Table` of the dict, and the topic ids are those of `TopicIdsMeaning` |
| Tagger.TableAppend | Software/hd_medi_data.py:150-182 | the dict is tabulated heading by heading: the rows of two parts in sequence are the rows of each part, in sequence |
| Tagger.TableLength | Software/hd_medi_data.py:161-182 | there is one row per list item and exactly one per string content |
| Tagger.RowTopics | Software/hd_medi_data.py:154-181 | a row's topics are exactly the non-zero ids whose patterns match the heading or the fragment; the heading's ids come first; no id appears twice |
| Tagger.EntryRowsMeaning | Software/hd_medi_data.py:150-182 | every row of a heading holds the heading without numbering, the heading's importance (at most 2), and its fragment without numbering, in order, with the topics of `RowTopics` |
| Scenarios.LabelSegmented | Software/hd_medi_data.py:8-74 | the text "1. 경고" followed by the line "복용하지 마십시오" segments to a single plain entry keyed by the heading line |
| Scenarios.LabelTable | Software/hd_medi_data.py:150-182 | with that line as the only forbid keyword, the single row has section "경고" and importance 2 |

## Left out

- `main` and its argument parsing and file reading (lines 189-211) are I/O and are not modelled: it reads a JSON keyword file and calls `split_sections` and `make_df`, writing nothing; as written, `main` calls `split_sections()` without its argument.
- The DataFrame built at line 184 is left out; the rows it is built from are modelled.
- Regular-expression matching for topics is the `search` parameter: the regex engine and case folding are not modelled.
- `\d`, `\s` and `str.strip()` accept only ASCII digits and whitespace here; Python also accepts other Unicode digits and spaces.
- Tagger.MakeTable: a missing "forbid" or "warning" list is a precondition, not a modelled `KeyError`.
- Tagger.MakeTable: the keyword table's unique keys are a precondition, because Python dict keys are unique by construction.
- A heading that is not a string (line 151) cannot occur: dict keys are strings here.
- Content that is neither a list nor a string produces no row in the source (lines 161, 172). Here content is always one of the two.
- A keyword table value must be a list of strings. Python would also iterate over a plain string character by character.
- The personalization extension (medication and disease ids) is not part of this model.
