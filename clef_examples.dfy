/**
 * The two-topic file of the reader's unit test: topics 1 and 2, titled
 * "simple test" and "another simple test". `SampleFile` covers such a file
 * in any language and with any of the three line endings, written in the
 * six-line layout of `ClefRoundTrip.Written`: one line per tag, no blanks
 * inside the tags and no lines besides the block's own. Its descriptions
 * and narratives may be any values a field line can carry on one line.
 * Then the map read has exactly the keys 1 and 2, its first key is 1 with
 * the first title and its last key is 2 with the second title. Two further
 * lemmas read padded lines like those of the test file, `<num> 007 </num>` among them.
 */
module ClefExamples {
  import opened Common
  import opened Text
  import opened ClefSpec
  import opened ClefProperties
  import opened ClefRoundTrip
  import opened SortedKeys

  /** Both titles of the test file can be written on one field line. */
  lemma SampleTitlesPlain()
    ensures Plain("simple test") && Plain("another simple test")
  {
  }

  /** A TreeMap over the keys 1 and 2 iterates 1 first and 2 last. */
  lemma AscendingOneTwo()
    ensures AscendingKeys({1, 2}) == [1, 2]
  {
    var r := AscendingKeys({1, 2});
    assert r[0] in {1, 2} && r[1] in {1, 2} && r[0] < r[1];
  }

  lemma IdsOfTwo(es: seq<Entry>)
    requires |es| == 2
    ensures Ids(TopicsOf(es)) == {es[0].id, es[1].id}
  {
    var ts := TopicsOf(es);
    assert ts[0] == TopicOf(es[0]) && ts[1] == TopicOf(es[1]);
    assert forall t :: t in ts ==> t == ts[0] || t == ts[1];
  }

  /** "title-1" is a field name and "title 1" a value a field line can carry. */
  lemma TitleOneWritable()
    ensures IsFieldName("title-1") && Plain("title 1")
  {
    forall k | 0 <= k < 7 ensures IsNameChar("title-1"[k]) { }
    assert LineStream.NoTerminator("title 1") && '<' !in "title 1";
  }

  /** An extra line `<EN-title-1>title 1</EN-title-1>` stores "title 1" under "title-1". */
  lemma ExtraTitleLine()
    ensures AuxStep(map[], "<EN-title-1>title 1</EN-title-1>", "EN") == map["title-1" := "title 1"]
  {
    ExtraTitleLineParts();
    TitleOneWritable();
    AuxLineCaptured(map[], "EN", "title-1", "title 1");
  }

  /** The extra line is the field line of "title 1" under "title-1". */
  lemma ExtraTitleLineParts()
    ensures FieldLine("EN", "title-1", "title 1") == "<EN-title-1>title 1</EN-title-1>"
  {
    assert OpenTag("EN", "title-1") == "<EN-title-1>";
    assert OpenTag("EN", "title-1") + "title 1" == "<EN-title-1>title 1";
  }

  /** The id line `<num> 007 </num>`: blanks and leading zeros do not change the id 7. */
  lemma PaddedIdLine()
    ensures ParseId(DigitsOnly(IdText("<num> 007 </num>"))) == Ok(7)
  {
    var d: string := "007";
    assert NumPrefix + " " + d + " " + NumClose == "<num> 007 </num>" by {
      assert NumPrefix + " " + d == "<num> 007";
    }
    assert "0" + "7" == "07" && "0" + "07" == d;
    assert DecimalString(7) == "7";
    assert AllDigits(d);
    PaddedNumLine(" ", d, " ");
    assert DigitsOnly(d) == d;
    ParseIdRoundTrip(7);
    ParseIdLeadingZero("7");
    ParseIdLeadingZero("07");
  }

  /** The title line `<EN-title> simple test </EN-title>` gives the title "simple test". */
  lemma PaddedTitleLine()
    ensures Cleaned(FieldText("<EN-title> simple test </EN-title>"), CloseTag("EN", "title")) == "simple test"
  {
    PaddedTitleLineParts();
    SampleTitlesPlain();
    PaddedFieldLineValue("EN", "title", " ", "simple test", " ");
  }

  /** The padded title line is the opening tag, a blank, the title, a blank and the closing tag. */
  lemma PaddedTitleLineParts()
    ensures OpenTag("EN", "title") + " " + "simple test" + " " + CloseTag("EN", "title")
            == "<EN-title> simple test </EN-title>"
  {
    assert OpenTag("EN", "title") + " " + "simple test" == "<EN-title> simple test";
  }

  lemma SampleFile(lang: string, es: seq<Entry>, eol: string)
    requires IsLanguage(lang) && LineStream.IsLineEnd(eol) && |es| == 2
    requires es[0].id == 1 && es[0].title == "simple test"
    requires es[1].id == 2 && es[1].title == "another simple test"
    requires Plain(es[0].description) && Plain(es[0].narrative)
    requires Plain(es[1].description) && Plain(es[1].narrative)
    ensures Parse(FileText(lang, es, eol)).Ok?
    ensures var m := Parse(FileText(lang, es, eol)).value;
      && m.Keys == {1, 2}
      && AscendingKeys(m.Keys) == [1, 2]
      && "title" in m[1] && m[1]["title"] == "simple test"
      && "title" in m[2] && m[2]["title"] == "another simple test"
  {
    SampleTitlesPlain();
    assert Writable(es[0]) && Writable(es[1]);
    WrittenFileContents(lang, es, eol);
    IdsOfTwo(es);
    AscendingOneTwo();
  }
}
