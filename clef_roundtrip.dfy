/**
 * Topics written out in the layout the reader expects — one `<top>` block per
 * topic, each field on its own line between its opening and closing tags —
 * are read back: every block becomes its topic, and the map is those topics
 * put in order.
 */
module ClefRoundTrip {
  import opened Common
  import opened Text
  import opened ClefSpec
  import opened ClefProperties

  /** A topic as a topic file states it. */
  datatype Entry = Entry(id: nat, title: string, description: string, narrative: string)

  /** A field value the layout can carry: trimmed, with no tag inside it and on one line. */
  predicate Plain(v: string) {
    Trimmed(v) && '<' !in v && LineStream.NoTerminator(v)
  }

  predicate Writable(e: Entry) {
    e.id <= MaxInt && Plain(e.title) && Plain(e.description) && Plain(e.narrative)
  }

  function FieldLine(lang: string, name: string, v: string): string {
    OpenTag(lang, name) + v + CloseTag(lang, name)
  }

  function NumLine(id: nat): string {
    NumPrefix + DecimalString(id) + NumClose
  }

  /** The six lines of one topic. */
  function Block(lang: string, e: Entry): seq<string> {
    ["<top>", NumLine(e.id), FieldLine(lang, "title", e.title), FieldLine(lang, "desc", e.description),
     FieldLine(lang, "narr", e.narrative), "</top>"]
  }

  /** The lines of a topic file holding `es` in order. */
  function Written(lang: string, es: seq<Entry>): (ls: seq<string>)
    ensures |ls| == 6 * |es|
    decreases |es|
  {
    if es == [] then [] else Block(lang, es[0]) + Written(lang, es[1..])
  }

  /** The topic the reader is meant to make of an entry. */
  function TopicOf(e: Entry): Topic {
    Topic(e.id, map["title" := e.title, "description" := e.description, "narrative" := e.narrative])
  }

  function TopicsOf(es: seq<Entry>): (ts: seq<Topic>)
    ensures |ts| == |es|
  {
    seq(|es|, i requires 0 <= i < |es| => TopicOf(es[i]))
  }

  // ---------------------------------------------------------------------------
  // One line

  /** A field line gives back its value once the text after `>` is trimmed and the closing tag stripped. */
  lemma FieldLineValue(lang: string, name: string, v: string)
    requires IsLanguage(lang) && '>' !in name && Plain(v)
    ensures Cleaned(FieldText(FieldLine(lang, name, v)), CloseTag(lang, name)) == v
  {
    NoPadding(OpenTag(lang, name), v, CloseTag(lang, name));
    PaddedFieldLineValue(lang, name, [], v, []);
  }

  /** A line padded with no blanks is the line itself. */
  lemma NoPadding(open: string, v: string, close: string)
    ensures open + [] + v + [] + close == open + v + close
  {
    assert open + [] == open;
    assert open + v + [] == open + v;
  }

  /**
   * The same with blanks between the tags and the value, as in
   * `<EN-title> simple test </EN-title>`: both trims remove them.
   */
  lemma PaddedFieldLineValue(lang: string, name: string, b1: string, v: string, b2: string)
    requires IsLanguage(lang) && '>' !in name && Plain(v) && AllBlank(b1) && AllBlank(b2)
    ensures Cleaned(FieldText(OpenTag(lang, name) + b1 + v + b2 + CloseTag(lang, name)), CloseTag(lang, name)) == v
  {
    var head := "<" + lang + "-" + name;
    var close := CloseTag(lang, name);
    assert '>' !in head by {
      assert forall k :: 0 <= k < |head| ==> head[k] == '<' || head[k] == '-' || head[k] in lang || head[k] in name;
    }
    var rest := b1 + v + b2 + close;
    assert OpenTag(lang, name) + b1 + v + b2 + close == head + ">" + rest;
    AfterTag(head, rest);
    assert close[0] == '<' && close[|close| - 1] == '>';
    CleanPadded(b1, v, b2, close);
  }

  /** The field pattern matches a written field line at its start, capturing its name. */
  lemma FieldLineTag(lang: string, name: string, v: string)
    requires IsFieldName(name)
    ensures FieldTag(FieldLine(lang, name, v), lang) == Some(name)
  {
    var line := FieldLine(lang, name, v);
    var open := OpenTag(lang, name);
    assert OccursAt(line, 0, open) by { assert line[..|open|] == open; }
    OccursFieldTagAt(line, 0, lang, name);
    assert FindFieldTag(line, 0, lang) == Some(0);
  }

  /** Cutting a field line's opening tag leaves its value and closing tag. */
  lemma FieldLineAfterOpen(lang: string, name: string, v: string)
    ensures RemoveFirst(FieldLine(lang, name, v), OpenTag(lang, name)) == v + CloseTag(lang, name)
  {
    var line := FieldLine(lang, name, v);
    var open := OpenTag(lang, name);
    assert OccursAt(line, 0, open) by { assert line[..|open|] == open; }
    RemoveFirstCutsLeftmost(line, open, 0);
    assert line[|open|..] == v + CloseTag(lang, name);
  }

  /** The auxiliary clean-up of a written field line gives back its value. */
  lemma FieldLineAuxValue(lang: string, name: string, v: string)
    requires Plain(v)
    ensures AuxValue(FieldLine(lang, name, v), lang, name) == v
  {
    var close := CloseTag(lang, name);
    FieldLineAfterOpen(lang, name, v);
    assert close[0] == '<' && close[|close| - 1] == '>';
    assert Trimmed(v + close);
    RemoveFirstTrailing(v, close);
  }

  /**
   * An auxiliary line written as `<XX-name>value</XX-name>` is captured under
   * `name` with `value`, whatever the map held before.
   */
  lemma AuxLineCaptured(f: Fields, lang: string, name: string, v: string)
    requires IsFieldName(name) && Plain(v)
    ensures AuxStep(f, FieldLine(lang, name, v), lang) == f[name := v]
  {
    FieldLineTag(lang, name, v);
    FieldLineAuxValue(lang, name, v);
    AuxStepOf(f, FieldLine(lang, name, v), lang, name, v);
  }

  lemma AuxStepOf(f: Fields, line: string, lang: string, name: string, v: string)
    requires FieldTag(line, lang) == Some(name) && AuxValue(line, lang, name) == v
    ensures AuxStep(f, line, lang) == f[name := v]
  {
  }

  /** The id line gives back the numeral it was written with. */
  lemma NumLineDigits(id: nat)
    ensures DigitsOnly(IdText(NumLine(id))) == DecimalString(id)
  {
    var d := DecimalString(id);
    assert AllDigits(d) by {
      assert forall k :: 0 <= k < |d| ==> IsDigit(d[k]);
    }
    NoPadding(NumPrefix, d, NumClose);
    PaddedNumLine([], d, []);
  }

  /**
   * An id line with blanks around its numeral, as in `<num> 007 </num>`: the
   * text between the tags, trimmed, is the numeral.
   */
  lemma PaddedNumLine(b1: string, d: string, b2: string)
    requires AllBlank(b1) && AllDigits(d) && AllBlank(b2)
    ensures IdText(NumPrefix + b1 + d + b2 + NumClose) == d
  {
    assert NumPrefix + b1 + d + b2 + NumClose == "<num" + ">" + (b1 + d + b2 + NumClose);
    AfterTag("<num", b1 + d + b2 + NumClose);
    assert '<' !in b1 + d + b2 by {
      assert forall k :: 0 <= k < |b1| ==> b1[k] <= ' ';
      assert forall k :: 0 <= k < |d| ==> IsDigit(d[k]);
      assert forall k :: 0 <= k < |b2| ==> b2[k] <= ' ';
    }
    RemoveAllTrailing(b1 + d + b2, NumClose);
    assert Trimmed(d) by {
      if d != [] {
        assert IsDigit(d[0]) && IsDigit(d[|d| - 1]);
      }
    }
    TrimPadded(b1, d, b2);
  }

  // ---------------------------------------------------------------------------
  // One block

  /** The lines of a block as the record scan picks them up: no auxiliary field between title and description. */
  function RawOf(lang: string, e: Entry): RawRecord {
    RawRecord(NumLine(e.id), FieldLine(lang, "title", e.title), map[], FieldLine(lang, "desc", e.description),
              FieldLine(lang, "narr", e.narrative))
  }

  /** Past its title line, the scan of a block finds its description and narrative lines. */
  lemma LocateBlockBody(lines: seq<string>, b: nat, lang: string, e: Entry)
    requires b + 6 <= |lines| && lines[b..b + 6] == Block(lang, e)
    ensures LocateBody(lines, b + 1, b + 2, lang) == Ok((RawOf(lang, e), b + 5))
  {
    var block := Block(lang, e);
    assert forall k :: 0 <= k < 6 ==> lines[b + k] == block[k];
    assert FirstMatch(lines, b + 3, OpenTag(lang, "desc")) == Some(b + 3);
    assert FirstMatch(lines, b + 4, OpenTag(lang, "narr")) == Some(b + 4);
    assert lines[b + 3..b + 3] == [];
  }

  /** The scan of a block finds its id, title, description and narrative lines one after another. */
  lemma LocateBlock(lines: seq<string>, b: nat, lang: string, e: Entry)
    requires b + 6 <= |lines| && lines[b..b + 6] == Block(lang, e)
    ensures Locate(lines, b + 1, lang) == Ok((RawOf(lang, e), b + 5))
  {
    assert lines[b + 1] == NumLine(e.id) && lines[b + 2] == FieldLine(lang, "title", e.title) by {
      assert lines[b + 1] == lines[b..b + 6][1] && lines[b + 2] == lines[b..b + 6][2];
    }
    assert FirstMatch(lines, b + 1, NumPrefix) == Some(b + 1);
    assert FirstMatch(lines, b + 2, OpenTag(lang, "title")) == Some(b + 2);
    LocateBlockBody(lines, b, lang, e);
  }

  /** The clean-up of scanned lines whose id and fixed fields come out as `n`, `title`, `description` and `narrative`. */
  lemma BuildTopicOf(raw: RawRecord, lang: string, n: int, title: string, description: string, narrative: string)
    requires ParseId(DigitsOnly(IdText(raw.numLine))) == Ok(n)
    requires Cleaned(FieldText(raw.titleLine), CloseTag(lang, "title")) == title
    requires Cleaned(FieldText(raw.descLine), CloseTag(lang, "desc")) == description
    requires Cleaned(FieldText(raw.narrLine), CloseTag(lang, "narr")) == narrative
    ensures BuildTopic(raw, lang) == Ok(Topic(n, WithFixed(raw.aux, title, description, narrative)))
  {}

  /** The title, description and narrative lines of a block give back the entry's fields. */
  lemma FixedLinesValues(lang: string, e: Entry)
    requires IsLanguage(lang) && Writable(e)
    ensures Cleaned(FieldText(FieldLine(lang, "title", e.title)), CloseTag(lang, "title")) == e.title
    ensures Cleaned(FieldText(FieldLine(lang, "desc", e.description)), CloseTag(lang, "desc")) == e.description
    ensures Cleaned(FieldText(FieldLine(lang, "narr", e.narrative)), CloseTag(lang, "narr")) == e.narrative
  {
    assert '>' !in "title" && '>' !in "desc" && '>' !in "narr";
    FieldLineValue(lang, "title", e.title);
    FieldLineValue(lang, "desc", e.description);
    FieldLineValue(lang, "narr", e.narrative);
  }

  /** Cleaning up the lines of a block gives back its entry. */
  lemma BuildBlock(lang: string, e: Entry)
    requires IsLanguage(lang) && Writable(e)
    ensures BuildTopic(RawOf(lang, e), lang) == Ok(TopicOf(e))
  {
    FixedLinesValues(lang, e);
    NumLineDigits(e.id);
    ParseIdRoundTrip(e.id);
    BuildTopicOf(RawOf(lang, e), lang, e.id, e.title, e.description, e.narrative);
    assert WithFixed(map[], e.title, e.description, e.narrative) == TopicOf(e).fields;
  }

  /** A record is its scanned lines cleaned up. */
  lemma ParseRecordOf(lines: seq<string>, p: nat, lang: string, raw: RawRecord, n: nat, topic: Topic)
    requires p <= |lines| && Locate(lines, p, lang) == Ok((raw, n)) && BuildTopic(raw, lang) == Ok(topic)
    ensures ParseRecord(lines, p, lang) == Ok((topic, n))
  {}

  /** A block whose `<top>` line is line `b` is read as its entry's topic, and the loop goes on at its `</top>` line. */
  lemma BlockParses(lines: seq<string>, b: nat, lang: string, e: Entry)
    requires b + 6 <= |lines| && lines[b..b + 6] == Block(lang, e)
    requires IsLanguage(lang) && Writable(e)
    ensures ParseRecord(lines, b + 1, lang) == Ok((TopicOf(e), b + 5))
  {
    LocateBlock(lines, b, lang, e);
    BuildBlock(lang, e);
    ParseRecordOf(lines, b + 1, lang, RawOf(lang, e), b + 5, TopicOf(e));
  }

  // ---------------------------------------------------------------------------
  // The record loop

  /** The next `<top` line from `p` on is the one from `p + 1` on when line `p` is not one. */
  lemma SkipPastSkips(lines: seq<string>, p: nat, prefix: string)
    requires p < |lines| && !StartsWith(lines[p], prefix)
    ensures SkipPast(lines, p, prefix) == SkipPast(lines, p + 1, prefix)
  {
    assert FirstMatch(lines, p, prefix) == FirstMatch(lines, p + 1, prefix);
  }

  /** The record loop depends on where it starts only through the next `<top` line. */
  lemma ParseFromSame(lines: seq<string>, p: nat, q: nat, lang: string, acc: map<int, Fields>)
    requires p <= |lines| && q <= |lines| && SkipPast(lines, p, TopPrefix) == SkipPast(lines, q, TopPrefix)
    ensures ParseFrom(lines, p, lang, acc) == ParseFrom(lines, q, lang, acc)
  {}

  /** Lines that cannot open a topic are skipped by the record loop. */
  lemma ParseFromSkips(lines: seq<string>, p: nat, lang: string, acc: map<int, Fields>)
    requires p < |lines| && !StartsWith(lines[p], TopPrefix)
    ensures ParseFrom(lines, p, lang, acc) == ParseFrom(lines, p + 1, lang, acc)
  {
    SkipPastSkips(lines, p, TopPrefix);
    ParseFromSame(lines, p, p + 1, lang, acc);
  }

  /** A record read after the next `<top` line is put into the map and the loop goes on after it. */
  lemma ParseFromStep(lines: seq<string>, p: nat, q: nat, lang: string, acc: map<int, Fields>, topic: Topic, n: nat)
    requires p <= |lines| && SkipPast(lines, p, TopPrefix) == Some(q)
    requires ParseRecord(lines, q, lang) == Ok((topic, n))
    ensures ParseFrom(lines, p, lang, acc) == ParseFrom(lines, n, lang, acc[topic.id := topic.fields])
  {}

  // ---------------------------------------------------------------------------
  // A whole file

  /** Block `i` of a written file sits at lines `6 * i` to `6 * i + 6`. */
  lemma {:induction false} WrittenBlock(lang: string, es: seq<Entry>, i: nat)
    requires i < |es|
    ensures Written(lang, es)[6 * i..6 * i + 6] == Block(lang, es[i])
    decreases i
  {
    var ls := Written(lang, es);
    assert ls == Block(lang, es[0]) + Written(lang, es[1..]);
    if i > 0 {
      WrittenBlock(lang, es[1..], i - 1);
      assert ls[6 * i..6 * i + 6] == Written(lang, es[1..])[6 * (i - 1)..6 * (i - 1) + 6];
    }
  }

  /** A block opens with a `<top` line and its last line does not open another topic. */
  lemma BlockEdges(lines: seq<string>, b: nat, lang: string, e: Entry)
    requires b + 6 <= |lines| && lines[b..b + 6] == Block(lang, e)
    ensures SkipPast(lines, b, TopPrefix) == Some(b + 1)
    ensures !StartsWith(lines[b + 5], TopPrefix)
  {
    assert lines[b] == "<top>" && lines[b + 5] == "</top>";
    assert FirstMatch(lines, b, TopPrefix) == Some(b);
    assert lines[b + 5][..|TopPrefix|][1] != TopPrefix[1];
  }

  /** The loop turn at block `b`: its topic is put and the loop goes on at the next block. */
  lemma BlockStep(lines: seq<string>, b: nat, lang: string, e: Entry, acc: map<int, Fields>)
    requires b + 6 <= |lines| && lines[b..b + 6] == Block(lang, e)
    requires IsLanguage(lang) && Writable(e)
    ensures ParseFrom(lines, b, lang, acc) == ParseFrom(lines, b + 6, lang, acc[e.id := TopicOf(e).fields])
  {
    BlockEdges(lines, b, lang, e);
    BlockParses(lines, b, lang, e);
    ParseFromStep(lines, b, b + 1, lang, acc, TopicOf(e), b + 5);
    ParseFromSkips(lines, b + 5, lang, acc[e.id := TopicOf(e).fields]);
  }

  /** Putting the topics of entries `i` on is putting entry `i`'s topic, then those of the entries after it. */
  lemma StoreFrom(acc: map<int, Fields>, es: seq<Entry>, i: nat)
    requires i < |es|
    ensures Store(acc, TopicsOf(es[i..])) == Store(acc[es[i].id := TopicOf(es[i]).fields], TopicsOf(es[i + 1..]))
  {
    var ts := TopicsOf(es[i..]);
    assert ts[0] == TopicOf(es[i]);
    assert ts[1..] == TopicsOf(es[i + 1..]);
  }

  /** From block `i` on, the record loop puts the remaining entries' topics into the map in order. */
  lemma {:induction false} WrittenParsesFrom(lang: string, es: seq<Entry>, i: nat, acc: map<int, Fields>)
    requires IsLanguage(lang) && forall k :: 0 <= k < |es| ==> Writable(es[k])
    requires i <= |es|
    ensures ParseFrom(Written(lang, es), 6 * i, lang, acc) == Ok(Store(acc, TopicsOf(es[i..])))
    decreases |es| - i
  {
    var lines := Written(lang, es);
    if i < |es| {
      var next := acc[es[i].id := TopicOf(es[i]).fields];
      WrittenBlock(lang, es, i);
      BlockStep(lines, 6 * i, lang, es[i], acc);
      WrittenParsesFrom(lang, es, i + 1, next);
      StoreFrom(acc, es, i);
      assert 6 * (i + 1) == 6 * i + 6;
      assert ParseFrom(lines, 6 * i, lang, acc) == ParseFrom(lines, 6 * (i + 1), lang, next);
    } else {
      assert SkipPast(lines, 6 * i, TopPrefix) == None;
      assert TopicsOf(es[i..]) == [];
    }
  }

  /** The record loop over the lines of a written file puts the entries' topics into the map in file order. */
  lemma WrittenLinesRead(lang: string, es: seq<Entry>)
    requires IsLanguage(lang) && forall k :: 0 <= k < |es| ==> Writable(es[k])
    ensures ParseFrom(Written(lang, es), 0, lang, map[]) == Ok(Store(map[], TopicsOf(es)))
  {
    WrittenParsesFrom(lang, es, 0, map[]);
    assert es[0..] == es;
  }

  // ---------------------------------------------------------------------------
  // A whole stream: language detection, line splitting and the record loop

  /** The text of a topic file holding `es` in order, every line ending in `eol`. */
  function FileText(lang: string, es: seq<Entry>, eol: string): string {
    LineStream.TerminatedBy(Written(lang, es), eol)
  }

  /** Every `<` of `s` is followed, inside `s`, by a character that is not a capital letter. */
  predicate NoCapitalAfterLt(s: string) {
    forall k :: 0 <= k < |s| && s[k] == '<' ==> k + 1 < |s| && !IsUpper(s[k + 1])
  }

  lemma NoCapitalAfterLtAppend(a: string, b: string)
    requires NoCapitalAfterLt(a) && NoCapitalAfterLt(b)
    ensures NoCapitalAfterLt(a + b)
  {
    var s := a + b;
    forall k | 0 <= k < |s| && s[k] == '<'
      ensures k + 1 < |s| && !IsUpper(s[k + 1])
    {
      if k < |a| {
        assert s[k] == a[k];
      } else {
        assert s[k] == b[k - |a|] && s[k + 1] == b[k + 1 - |a|];
      }
    }
  }

  /** The `<top>` line and the id line of a file's first block, with their line endings. */
  function FileHead(id: nat, eol: string): string {
    "<top>" + eol + NumLine(id) + eol
  }

  /** An `int` id has at most ten digits. */
  lemma IdWidth(id: nat)
    requires id <= MaxInt
    ensures |DecimalString(id)| <= 10
  {
    assert Pow10(10) == 10000000000;
    DecimalStringWidth(id, 10);
  }

  /** The tags of the head: none of their `<` is followed by a capital letter. */
  lemma HeadTagsNoCapital()
    ensures NoCapitalAfterLt("<top>") && NoCapitalAfterLt("<num>") && NoCapitalAfterLt("</num>")
  {
    forall k | 0 <= k < 5 && "<top>"[k] == '<' ensures k == 0 { }
    forall k | 0 <= k < 5 && "<num>"[k] == '<' ensures k == 0 { }
    forall k | 0 <= k < 6 && "</num>"[k] == '<' ensures k == 0 { }
  }

  /** No `<` at all, so nothing to check. */
  lemma NoLtNoCapital(s: string)
    requires '<' !in s
    ensures NoCapitalAfterLt(s)
  {
  }

  /** The id line holds no `<` followed by a capital letter. */
  lemma NumLineNoCapital(id: nat)
    ensures NoCapitalAfterLt(NumLine(id))
  {
    var d := DecimalString(id);
    HeadTagsNoCapital();
    assert '<' !in d by {
      forall k | 0 <= k < |d| ensures d[k] != '<' { assert IsDigit(d[k]); }
    }
    NoLtNoCapital(d);
    NoCapitalAfterLtAppend("<num>", d);
    NoCapitalAfterLtAppend("<num>" + d, "</num>");
  }

  /** No language tag can start inside the head, and the head is at most 30 characters long. */
  lemma FileHeadShape(id: nat, eol: string)
    requires id <= MaxInt && LineStream.IsLineEnd(eol)
    ensures NoCapitalAfterLt(FileHead(id, eol))
    ensures |FileHead(id, eol)| <= 30
  {
    IdWidth(id);
    HeadTagsNoCapital();
    NoLtNoCapital(eol);
    NumLineNoCapital(id);
    var a1 := "<top>" + eol;
    var a2 := a1 + NumLine(id);
    NoCapitalAfterLtAppend("<top>", eol);
    NoCapitalAfterLtAppend(a1, NumLine(id));
    NoCapitalAfterLtAppend(a2, eol);
  }

  /** A file starts with its first block's head, then the opening tag of its first title. */
  lemma FileTextStarts(lang: string, es: seq<Entry>, eol: string)
    requires es != []
    ensures exists rest :: FileText(lang, es, eol) == FileHead(es[0].id, eol) + OpenTag(lang, "title") + rest
  {
    var ls := Written(lang, es);
    assert ls == Block(lang, es[0]) + Written(lang, es[1..]);
    assert ls[0] == "<top>" && ls[1] == NumLine(es[0].id) && ls[2] == FieldLine(lang, "title", es[0].title);
    var t2 := LineStream.TerminatedBy(ls[2..], eol);
    var t3 := LineStream.TerminatedBy(ls[3..], eol);
    assert ls[1..][1..] == ls[2..];
    assert LineStream.TerminatedBy(ls[1..], eol) == ls[1] + eol + t2;
    assert FileText(lang, es, eol) == ls[0] + eol + (ls[1] + eol + t2);
    assert t2 == ls[2] + eol + t3 by { assert ls[2..][1..] == ls[3..]; }
    var open := OpenTag(lang, "title");
    var x := es[0].title + CloseTag(lang, "title");
    assert ls[2] == open + x;
    LinesRegroup(ls[0], ls[1], open, x, eol, t3);
    assert FileText(lang, es, eol) == FileHead(es[0].id, eol) + open + (x + eol + t3);
  }

  /** The first three lines of a file, the third split after its opening tag, regrouped. */
  lemma LinesRegroup(l0: string, l1: string, open: string, x: string, eol: string, t: string)
    ensures l0 + eol + (l1 + eol + (open + x + eol + t)) == l0 + eol + l1 + eol + open + (x + eol + t)
  {
  }

  /** The peeked window keeps the start of a text that fits in it. */
  lemma WindowKeeps(text: string, start: string)
    requires |start| <= PeekLength && start <= text
    ensures start <= Window(text)
  {
  }

  /**
   * A window that starts with a head in which no `<` is followed by a capital
   * letter, then a title tag, names that tag's language.
   */
  lemma FirstLanguageTag(w: string, h: string, lang: string)
    requires IsLanguage(lang) && NoCapitalAfterLt(h) && h + OpenTag(lang, "title") <= w
    ensures FindLanguage(w) == Some(lang)
  {
    var tag := OpenTag(lang, "title");
    assert |tag| == 10;
    assert OccursAt(w, |h|, tag) by { assert w[|h|..|h| + 10] == (h + tag)[|h|..]; }
    LanguageTagAtIff(w, |h|, lang);
    forall j | 0 <= j < |h|
      ensures !LanguageTagAt(w, j)
    {
      assert w[j] == (h + tag)[j] == h[j];
      if w[j] == '<' {
        assert w[j + 1] == (h + tag)[j + 1] == h[j + 1];
      }
    }
    assert FindLanguageFrom(w, 0) == Some(|h|);
  }

  /** The first `<XX-title>` in the peeked window of a file is its first title tag. */
  lemma FileLanguage(lang: string, es: seq<Entry>, eol: string)
    requires IsLanguage(lang) && LineStream.IsLineEnd(eol) && es != [] && es[0].id <= MaxInt
    ensures FindLanguage(Window(FileText(lang, es, eol))) == Some(lang)
  {
    var h := FileHead(es[0].id, eol);
    var tag := OpenTag(lang, "title");
    var rest :| FileText(lang, es, eol) == h + tag + rest by { FileTextStarts(lang, es, eol); }
    FileHeadShape(es[0].id, eol);
    assert h + tag <= FileText(lang, es, eol);
    WindowKeeps(FileText(lang, es, eol), h + tag);
    FirstLanguageTag(Window(FileText(lang, es, eol)), h, lang);
  }

  /** No line of a written file holds a line terminator. */
  lemma WrittenLines(lang: string, es: seq<Entry>)
    requires IsLanguage(lang) && forall k :: 0 <= k < |es| ==> Writable(es[k])
    ensures forall k :: 0 <= k < |Written(lang, es)| ==> LineStream.NoTerminator(Written(lang, es)[k])
  {
    var ls := Written(lang, es);
    forall k | 0 <= k < |ls|
      ensures LineStream.NoTerminator(ls[k])
    {
      var i := k / 6;
      WrittenBlock(lang, es, i);
      var b := Block(lang, es[i]);
      assert ls[k] == b[k - 6 * i];
      BlockLines(lang, es[i]);
    }
  }

  /** A field line carries no terminator when its value carries none. */
  lemma FieldLineLine(lang: string, name: string, v: string)
    requires IsLanguage(lang) && LineStream.NoTerminator(name) && LineStream.NoTerminator(v)
    ensures LineStream.NoTerminator(FieldLine(lang, name, v))
  {
    assert LineStream.NoTerminator(lang);
    assert LineStream.NoTerminator("<") && LineStream.NoTerminator("-") && LineStream.NoTerminator(">");
    assert LineStream.NoTerminator("</");
    LineStream.NoTerminatorAppend("<", lang);
    LineStream.NoTerminatorAppend("<" + lang, "-");
    LineStream.NoTerminatorAppend("<" + lang + "-", name);
    LineStream.NoTerminatorAppend("<" + lang + "-" + name, ">");
    LineStream.NoTerminatorAppend("</", lang);
    LineStream.NoTerminatorAppend("</" + lang, "-");
    LineStream.NoTerminatorAppend("</" + lang + "-", name);
    LineStream.NoTerminatorAppend("</" + lang + "-" + name, ">");
    LineStream.NoTerminatorAppend(OpenTag(lang, name), v);
    LineStream.NoTerminatorAppend(OpenTag(lang, name) + v, CloseTag(lang, name));
  }

  lemma BlockLines(lang: string, e: Entry)
    requires IsLanguage(lang) && Writable(e)
    ensures forall k :: 0 <= k < 6 ==> LineStream.NoTerminator(Block(lang, e)[k])
  {
    var d := DecimalString(e.id);
    assert LineStream.NoTerminator(d) by { assert forall k :: 0 <= k < |d| ==> IsDigit(d[k]); }
    assert LineStream.NoTerminator(NumPrefix) && LineStream.NoTerminator(NumClose);
    LineStream.NoTerminatorAppend(NumPrefix, d);
    LineStream.NoTerminatorAppend(NumPrefix + d, NumClose);
    assert LineStream.NoTerminator("title") && LineStream.NoTerminator("desc") && LineStream.NoTerminator("narr");
    FieldLineLine(lang, "title", e.title);
    FieldLineLine(lang, "desc", e.description);
    FieldLineLine(lang, "narr", e.narrative);
    assert LineStream.NoTerminator("<top>") && LineStream.NoTerminator("</top>");
  }

  /**
   * Reading a written file from its text: the language is found in the peeked
   * window, the text splits back into the lines written, whichever line ending
   * was used, and the map holds the entries' topics put in file order. An empty
   * file has no title tag, so no language is found.
   */
  lemma FileReads(lang: string, es: seq<Entry>, eol: string)
    requires IsLanguage(lang) && LineStream.IsLineEnd(eol) && forall k :: 0 <= k < |es| ==> Writable(es[k])
    ensures Parse(FileText(lang, es, eol)) == if es == [] then Err(LanguageNotFound) else Ok(Store(map[], TopicsOf(es)))
  {
    if es == [] {
      assert FileText(lang, es, eol) == [];
      assert Window([]) == [];
    } else {
      FileLanguage(lang, es, eol);
      WrittenLines(lang, es);
      LineStream.LinesOfTerminated(Written(lang, es), eol);
      WrittenLinesRead(lang, es);
    }
  }

  /** With distinct ids, putting the entries' topics holds exactly their ids, each with its own fields. */
  lemma StoredEntries(es: seq<Entry>)
    requires forall i, j :: 0 <= i < j < |es| ==> es[i].id != es[j].id
    ensures Store(map[], TopicsOf(es)).Keys == Ids(TopicsOf(es))
    ensures forall i :: 0 <= i < |es| ==>
              es[i].id in Store(map[], TopicsOf(es)) && Store(map[], TopicsOf(es))[es[i].id] == TopicOf(es[i]).fields
  {
    var ts := TopicsOf(es);
    StoreKeys(map[], ts);
    forall i | 0 <= i < |es|
      ensures es[i].id in Store(map[], ts) && Store(map[], ts)[es[i].id] == TopicOf(es[i]).fields
    {
      StoreLastWins(map[], ts, i);
    }
  }

  /**
   * With distinct ids, the map read from a written file holds exactly the
   * entries' ids, each mapped to its entry's title, description and narrative;
   * only the empty file fails.
   */
  lemma WrittenFileContents(lang: string, es: seq<Entry>, eol: string)
    requires IsLanguage(lang) && LineStream.IsLineEnd(eol) && forall k :: 0 <= k < |es| ==> Writable(es[k])
    requires forall i, j :: 0 <= i < j < |es| ==> es[i].id != es[j].id
    ensures Parse(FileText(lang, es, eol)).Ok? <==> es != []
    ensures es != [] ==> Parse(FileText(lang, es, eol)).value.Keys == Ids(TopicsOf(es))
    ensures forall i :: 0 <= i < |es| ==>
              && es[i].id in Parse(FileText(lang, es, eol)).value
              && Parse(FileText(lang, es, eol)).value[es[i].id] == TopicOf(es[i]).fields
  {
    FileReads(lang, es, eol);
    StoredEntries(es);
  }
}
