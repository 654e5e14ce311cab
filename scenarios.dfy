/**
  A worked input run through the whole pipeline: a heading "1. 경고" whose body is
  the single prose line "복용하지 마십시오", tagged with that line as the only forbid
  keyword.
 */
module Scenarios {
  import opened Text
  import opened Dict
  import opened Segmenter
  import opened Tagger

  const Heading: string := "1. 경고"
  const Body: string := "복용하지 마십시오"
  const Label: string := "1. 경고\n복용하지 마십시오"
  const Config: Keywords := [("forbid", [Body]), ("warning", [])]

  lemma LabelLines()
    ensures SplitLines(Label) == [Heading, Body]
  {
    SplitJoinLines([Heading, Body]);
    assert JoinLines([Heading, Body]) == Label;
  }

  lemma HeadingLine()
    ensures IsHeading(Heading) && HeadingKey(Heading) == Heading
  {
    assert Span(Heading, IsDigit) == 1;
    assert Span(Heading[3..], NotKeyEnd) == 2;
  }

  lemma BodyNotMarker()
    ensures !IsHeading(Body) && !IsMarker(Body)
  {
    assert Span(Body, IsDigit) == 0;
    assert !RunThen(Body[3..], IsHangulSyllable, '.');
  }

  lemma BodyProse()
    ensures Strip(Prose([Body])) == Body
  {
    assert Prose([Body]) == "\n" + Strip(Body);
    assert Trimmed(Body) && PaddedAt(Body, Body, 0);
    StripUnique(Body, Body, 0);
    assert PaddedAt("\n" + Body, Body, 1);
    StripUnique("\n" + Body, Body, 1);
  }

  lemma BodyLine()
    ensures !IsHeading(Body) && !IsMarker(Body)
    ensures Render([Body]) == Plain(Body)
  {
    BodyNotMarker();
    BodyProse();
    assert Span([Body], NotMarker) == 1;
  }

  lemma LabelSections()
    ensures Sections([Heading, Body]) == [Section(Heading, [Body])]
  {
    HeadingLine();
    BodyNotMarker();
    var lines := [Heading, Body];
    assert lines[1..] == [Body];
    assert Span(lines[1..], NotHeading) == 1;
    assert lines[1..][..1] == [Body];
    assert lines[1..][1..] == [];
    assert Sections([]) == [];
    assert IsHeading(lines[0]);
  }

  /** The label segments to one plain entry, keyed by the whole heading line. */
  lemma LabelSegmented()
    ensures Segmented(SplitLines(Label)) == [(Heading, Plain(Body))]
  {
    LabelLines();
    LabelSections();
    HeadingLine();
    BodyLine();
    var secs := [Section(Heading, [Body])];
    assert secs[1..] == [];
    assert Assemble([], secs) == Put([], Heading, Plain(Body));
  }

  /** A keyword longer than the text does not occur in it. */
  lemma {:induction false} ContainsShorter(s: string, k: string)
    requires |s| < |k|
    ensures !Contains(s, k)
  {
    if s != [] {
      ContainsShorter(s[1..], k);
    }
  }

  lemma TitleOfHeading()
    ensures StripNumbering(Heading) == "경고"
  {
    assert Span("1. ", IsDigit) == 1;
    StripNumberingPrepended("1. ", "경고");
    assert "1. " + "경고" == Heading;
  }

  lemma BodyUnnumbered()
    ensures StripNumbering(Body) == Body
  {
    assert Span(Body, IsDigit) == 0;
  }

  lemma ImportanceOfTitle()
    ensures TagImportance("경고", [Body], []) == 2
  {
    ContainsShorter("경고", Body);
  }

  lemma ConfigLists()
    ensures Configured(Config) && ToMap(Config)["forbid"] == [Body] && ToMap(Config)["warning"] == []
    ensures Topics(Config) == []
  {
    assert Config[..1] == [("forbid", [Body])];
    assert Config[..1][..0] == [];
  }

  /** The one row: the heading loses its numbering, and its importance is 2 although
      the body holds the forbid keyword, because only the heading is searched. */
  lemma LabelTable(search: Matcher)
    ensures Table([(Heading, Plain(Body))], Config, search) == [Row("경고", Body, 2, [])]
  {
    ConfigLists();
    LabelRows(search);
    var doc := [(Heading, Plain(Body))];
    assert doc[..0] == [];
    TableLast(doc, Config, search);
    assert HeadingRows(doc[0], Config, search) == EntryRows(Heading, Plain(Body), [Body], [], [], search);
  }

  lemma LabelRows(search: Matcher)
    ensures EntryRows(Heading, Plain(Body), [Body], [], [], search) == [Row("경고", Body, 2, [])]
  {
    TitleOfHeading();
    BodyUnnumbered();
    ImportanceOfTitle();
    var rows := EntryRows(Heading, Plain(Body), [Body], [], [], search);
    assert MatchIds("경고", [], [], search, 0) == [];
    assert MatchIds(Body, [], [], search, 0) == [];
    assert |rows| == 1;
    assert rows[0] == RowFor("경고", 2, [], Body, [], search) == Row("경고", Body, 2, []);
  }
}
