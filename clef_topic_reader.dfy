/**
 * ClefTopicReader as the source runs it: a cursor moving over the lines of the
 * stream, the prefix-scan helper, the language peek, the per-topic reading with
 * its one-line pushback, and the record loop filling the id-keyed map. Each
 * method is proved to compute what ClefSpec says.
 */
module ClefTopicReader {
  import opened Common
  import opened Text
  import opened LineStream
  import opened ClefSpec

  /**
   * `read(reader, prefix, sb, collectMatchLine, collectAll)`: skips lines until
   * one starts with `prefix`, appending the skipped lines and the match as asked,
   * `newline` between them. `sb` is the builder's initial text ("" for null).
   */
  method ReadUntil(reader: LineReader, prefix: string, sb: string,
                   collectMatchLine: bool, collectAll: bool, newline: string) returns (r: Option<string>)
    requires reader.Valid()
    modifies reader`pos
    ensures reader.Valid()
    ensures match Scan(reader.lines, old(reader.pos), prefix, sb, collectMatchLine, collectAll, newline)
            case None => r.None? && reader.pos == |reader.lines|
            case Some((text, next)) => r == Some(text) && reader.pos == next
  {
    ghost var p0 := reader.pos;
    ghost var lines := reader.lines;
    ghost var got: seq<string> := [];
    var acc := sb;
    var sep := "";
    while true
      invariant reader.Valid() && reader.lines == lines
      invariant p0 <= reader.pos <= |lines|
      invariant forall j :: p0 <= j < reader.pos ==> !StartsWith(lines[j], prefix)
      invariant got == if collectAll then lines[p0..reader.pos] else []
      invariant acc == sb + Join(got, newline)
      invariant sep == if got == [] then "" else newline
      decreases |lines| - reader.pos
    {
      ghost var before := reader.pos;
      var line := reader.ReadLine();
      if line.None? {
        return None;
      }
      if StartsWith(line.value, prefix) {
        ScanEnds(lines, p0, before, prefix, sb, collectMatchLine, collectAll, newline, got, sep, acc);
        if collectMatchLine {
          acc := acc + (sep + line.value);
        }
        break;
      }
      if collectAll {
        CollectOne(lines, p0, before, sb, newline, got, sep, acc);
        acc := acc + (sep + line.value);
        sep := newline;
        got := got + [line.value];
      }
    }
    r := Some(acc);
  }

  /** The scan ends at line `m`, the builder holding the collected lines so far. */
  lemma ScanEnds(lines: seq<string>, p0: nat, m: nat, prefix: string, sb: string, collectMatchLine: bool,
                 collectAll: bool, newline: string, got: seq<string>, sep: string, acc: string)
    requires p0 <= m < |lines| && StartsWith(lines[m], prefix)
    requires forall j :: p0 <= j < m ==> !StartsWith(lines[j], prefix)
    requires got == (if collectAll then lines[p0..m] else [])
    requires acc == sb + Join(got, newline)
    requires sep == (if got == [] then "" else newline)
    ensures Scan(lines, p0, prefix, sb, collectMatchLine, collectAll, newline)
            == Some((if collectMatchLine then acc + (sep + lines[m]) else acc, m + 1))
  {
    ScanStopsAt(lines, p0, m, prefix, sb, collectMatchLine, collectAll, newline);
    var collected := Collected(lines, p0, m, collectMatchLine, collectAll);
    if collectMatchLine {
      assert collected == got + [lines[m]];
      JoinSnoc(got, lines[m], newline);
      if got == [] {
        assert acc == sb && sep + lines[m] == lines[m];
      } else {
        assert sb + Join(collected, newline) == sb + Join(got, newline) + (newline + lines[m]);
      }
    } else {
      assert collected == got + [] == got;
    }
  }

  /** A skipped line appended to the builder. */
  lemma CollectOne(lines: seq<string>, p0: nat, m: nat, sb: string, newline: string,
                   got: seq<string>, sep: string, acc: string)
    requires p0 <= m < |lines| && got == lines[p0..m]
    requires acc == sb + Join(got, newline)
    requires sep == (if got == [] then "" else newline)
    ensures lines[p0..m + 1] == got + [lines[m]]
    ensures acc + (sep + lines[m]) == sb + Join(got + [lines[m]], newline)
  {
    JoinSnoc(got, lines[m], newline);
    assert lines[p0..m + 1] == lines[p0..m] + [lines[m]];
  }

  /**
   * `extract`: the language code of the first `<XX-title>` in the first 1000
   * characters. The peek consumes nothing, so the method modifies nothing.
   */
  method Extract(reader: LineReader) returns (r: Result<string, ReadError>)
    requires reader.Valid() && reader.pos == 0
    ensures r == match FindLanguage(Window(reader.text))
                 case None => Err(LanguageNotFound)
                 case Some(lang) => Ok(lang)
  {
    var buffer := reader.Peek(PeekLength);
    var found := FindLanguage(buffer);
    if found.Some? {
      r := Ok(found.value);
    } else {
      r := Err(LanguageNotFound);
    }
  }

  /**
   * One auxiliary line: if it matches `<XX-([\w-]+)>`, the first opening and
   * then the first closing tag of the captured name are removed, the rest is
   * trimmed and put under that name; otherwise the map is left as it is. The
   * statement-by-statement counterpart of `ClefSpec.AuxStep`, which it computes.
   */
  method PutAuxField(fields: Fields, line: string, lang: string) returns (f: Fields)
    ensures f == AuxStep(fields, line, lang)
  {
    f := fields;
    var name := FieldTag(line, lang);
    if name.Some? {
      var value := Trim(RemoveFirst(line, OpenTag(lang, name.value)));
      value := Trim(RemoveFirst(value, CloseTag(lang, name.value)));
      f := f[name.value := value];
    }
  }

  /**
   * The `while (true)` loop after the title: each line is read after a `mark`;
   * the first line starting with `<XX-desc>` is pushed back with `reset`, any
   * other line matching `<XX-([\w-]+)>` stores its value under the captured
   * name. `None` stands for the null line the loop dereferences at end of stream.
   */
  method ReadAuxFields(reader: LineReader, lang: string) returns (r: Option<Fields>)
    requires reader.Valid()
    modifies reader`pos, reader`markPos
    ensures reader.Valid()
    ensures match FirstMatch(reader.lines, old(reader.pos), OpenTag(lang, "desc"))
            case None => r.None?
            case Some(md) => r == Some(AuxFold(reader.lines[old(reader.pos)..md], lang)) && reader.pos == md
  {
    ghost var lines := reader.lines;
    ghost var start := reader.pos;
    var descTag := OpenTag(lang, "desc");
    var fields: Fields := map[];
    while true
      invariant reader.Valid() && reader.lines == lines
      invariant start <= reader.pos <= |lines|
      invariant forall j :: start <= j < reader.pos ==> !StartsWith(lines[j], descTag)
      invariant fields == AuxFold(lines[start..reader.pos], lang)
      decreases |lines| - reader.pos
    {
      reader.Mark();
      var line := reader.ReadLine();
      if line.None? {
        assert FirstMatch(lines, start, descTag).None?;
        return None;
      }
      if StartsWith(line.value, descTag) {
        reader.Reset();
        break;
      }
      AuxFoldExtend(lines, start, reader.pos - 1, lang);
      fields := PutAuxField(fields, line.value, lang);
    }
    assert FirstMatch(lines, start, descTag) == Some(reader.pos);
    r := Some(fields);
  }

  /**
   * What the record loop makes of the lines it found: the text after the first
   * `>` of each line, trimmed (with `</num>` removed from the id), the id's
   * digits picked out, the closing tags stripped, the three fixed fields put
   * over the auxiliary ones, and `Integer.valueOf` on the digits. The
   * statement-by-statement counterpart of `ClefSpec.BuildTopic`, which it computes.
   */
  method CleanUp(raw: RawRecord, lang: string) returns (r: Result<Topic, RecordError>)
    ensures r == BuildTopic(raw, lang)
  {
    var id := Trim(RemoveAll(AfterFirstGt(raw.numLine), NumClose));
    var title := Trim(AfterFirstGt(raw.titleLine));
    var description := Trim(AfterFirstGt(raw.descLine));
    var narrative := Trim(AfterFirstGt(raw.narrLine));
    id := DigitsOnly(id);
    title := Trim(RemoveAll(title, CloseTag(lang, "title")));
    description := Trim(RemoveAll(description, CloseTag(lang, "desc")));
    narrative := Trim(RemoveAll(narrative, CloseTag(lang, "narr")));
    var fields := raw.aux["title" := title]["description" := description]["narrative" := narrative];
    var key := ParseId(id);
    if key.Err? {
      return Err(key.error);
    }
    r := Ok(Topic(key.value, fields));
  }

  /**
   * `read(reader, prefix, null, true, false)` as the record loop calls it: the
   * first line from the current one that starts with `prefix`.
   */
  method ReadMatchLine(reader: LineReader, prefix: string, newline: string) returns (line: Option<string>)
    requires reader.Valid()
    modifies reader`pos
    ensures reader.Valid()
    ensures match FirstMatch(reader.lines, old(reader.pos), prefix)
            case None => line.None?
            case Some(m) => line == Some(reader.lines[m]) && reader.pos == m + 1
  {
    ScanMatchLine(reader.lines, reader.pos, prefix, "", newline);
    line := ReadUntil(reader, prefix, "", true, false, newline);
    if line.Some? {
      assert "" + reader.lines[reader.pos - 1] == reader.lines[reader.pos - 1];
    }
  }

  /**
   * `read(reader, "<top", null, false, false)` as the record loop calls it:
   * whether a line starting with `prefix` is left, consumed through that line.
   */
  method SkipTo(reader: LineReader, prefix: string, newline: string) returns (found: bool)
    requires reader.Valid()
    modifies reader`pos
    ensures reader.Valid()
    ensures match SkipPast(reader.lines, old(reader.pos), prefix)
            case None => !found
            case Some(q) => found && reader.pos == q
  {
    var sb := ReadUntil(reader, prefix, "", false, false, newline);
    found := sb.Some?;
  }

  /**
   * The body of the record loop once its `<top` line is read: the lines of the
   * record, then the clean-up.
   */
  method ReadTopic(reader: LineReader, lang: string, newline: string) returns (r: Result<Topic, RecordError>)
    requires reader.Valid()
    modifies reader`pos, reader`markPos
    ensures reader.Valid()
    ensures match ParseRecord(reader.lines, old(reader.pos), lang)
            case Err(e) => r == Err(e)
            case Ok((topic, next)) => r == Ok(topic) && reader.pos == next
  {
    var raw := ReadRecordLines(reader, lang, newline);
    if raw.Err? {
      return Err(raw.error);
    }
    r := CleanUp(raw.value, lang);
  }

  /** The id line and the title line of a record, then the rest of its lines. */
  method ReadRecordLines(reader: LineReader, lang: string, newline: string) returns (r: Result<RawRecord, RecordError>)
    requires reader.Valid()
    modifies reader`pos, reader`markPos
    ensures reader.Valid()
    ensures match Locate(reader.lines, old(reader.pos), lang)
            case Err(e) => r == Err(e)
            case Ok((raw, next)) => r == Ok(raw) && reader.pos == next
  {
    var numLine := ReadMatchLine(reader, NumPrefix, newline);
    if numLine.None? {
      return Err(Truncated);
    }
    ghost var mn := reader.pos - 1;
    var titleLine := ReadMatchLine(reader, OpenTag(lang, "title"), newline);
    if titleLine.None? {
      return Err(Truncated);
    }
    ghost var mt := reader.pos - 1;
    r := ReadBodyLines(reader, lang, newline, numLine.value, titleLine.value, mn, mt);
  }

  /**
   * The lines of a record from its title line on: the auxiliary lines up to
   * the description (the description line is pushed back with mark/reset),
   * the description and the narrative.
   */
  method ReadBodyLines(reader: LineReader, lang: string, newline: string, numLine: string, titleLine: string,
                       ghost mn: nat, ghost mt: nat) returns (r: Result<RawRecord, RecordError>)
    requires reader.Valid() && mn < mt < |reader.lines| && reader.pos == mt + 1
    requires numLine == reader.lines[mn] && titleLine == reader.lines[mt]
    modifies reader`pos, reader`markPos
    ensures reader.Valid()
    ensures match LocateBody(reader.lines, mn, mt, lang)
            case Err(e) => r == Err(e)
            case Ok((raw, next)) => r == Ok(raw) && reader.pos == next
  {
    ghost var lines := reader.lines;
    var descTag := OpenTag(lang, "desc");
    var aux := ReadAuxFields(reader, lang);
    if aux.None? {
      return Err(Truncated);
    }
    ghost var md := reader.pos;
    var descLine := ReadMatchLine(reader, descTag, newline);
    assert FirstMatch(lines, md, descTag) == Some(md);
    var narrLine := ReadMatchLine(reader, OpenTag(lang, "narr"), newline);
    if narrLine.None? {
      return Err(Truncated);
    }
    r := Ok(RawRecord(numLine, titleLine, aux.value, descLine.value, narrLine.value));
  }


  /**
   * `read(BufferedReader)`: the language code, then the record loop. The
   * exception a record raises propagates out of `read`.
   */
  method Read(reader: LineReader, newline: string) returns (r: Result<map<int, Fields>, ReadError>)
    requires reader.Valid() && reader.pos == 0
    modifies reader`pos, reader`markPos
    ensures r == Parse(reader.text)
  {
    var found := Extract(reader);
    if found.Err? {
      return Err(found.error);
    }
    var topics := ReadTopics(reader, found.value, newline);
    if topics.Err? {
      return Err(BadRecord(topics.error));
    }
    r := Ok(topics.value);
  }

  /**
   * The record loop: one topic per `<top` line until no `<top` line is left,
   * each put into the map under its id.
   */
  method ReadTopics(reader: LineReader, lang: string, newline: string) returns (r: Result<map<int, Fields>, RecordError>)
    requires reader.Valid()
    modifies reader`pos, reader`markPos
    ensures r == ParseFrom(reader.lines, old(reader.pos), lang, map[])
  {
    var topics: map<int, Fields> := map[];
    while true
      invariant reader.Valid()
      invariant ParseFrom(reader.lines, reader.pos, lang, topics) == ParseFrom(reader.lines, old(reader.pos), lang, map[])
      decreases |reader.lines| - reader.pos
    {
      var top := SkipTo(reader, TopPrefix, newline);
      if !top {
        break;
      }
      var topic := ReadTopic(reader, lang, newline);
      if topic.Err? {
        return Err(topic.error);
      }
      topics := topics[topic.value.id := topic.value.fields];
    }
    r := Ok(topics);
  }
}
