/**
 * What the reader promises about its output, proved about the functions in
 * ClefSpec: the map is the topics put in file order (so a later record with
 * the same id wins), auxiliary fields are the last value seen per name, the
 * fixed fields override them, the patterns mean what their regular expressions
 * say, and the failure cases.
 */
module ClefProperties {
  import opened Common
  import opened Text
  import opened ClefSpec

  // ---------------------------------------------------------------------------
  // The map is the records put in turn

  /** The record loop puts each topic of `Records` into the map, in file order. */
  lemma {:induction false} ParseFromIsStore(lines: seq<string>, p: nat, lang: string, acc: map<int, Fields>)
    requires p <= |lines|
    ensures ParseFrom(lines, p, lang, acc)
            == match Records(lines, p, lang)
               case Err(e) => Err(e)
               case Ok(ts) => Ok(Store(acc, ts))
    decreases |lines| - p
  {
    match SkipPast(lines, p, TopPrefix)
    case None =>
    case Some(q) =>
      match ParseRecord(lines, q, lang)
      case Err(e) =>
      case Ok((topic, n)) =>
        ParseFromIsStore(lines, n, lang, acc[topic.id := topic.fields]);
        match Records(lines, n, lang)
        case Err(e) =>
        case Ok(rest) =>
          assert ([topic] + rest)[0] == topic && ([topic] + rest)[1..] == rest;
    }

  /** Every record of the stream has an `int` id and its title, description and narrative. */
  lemma {:induction false} RecordsWellFormed(lines: seq<string>, p: nat, lang: string)
    requires p <= |lines| && Records(lines, p, lang).Ok?
    ensures forall i :: 0 <= i < |Records(lines, p, lang).value| ==>
              0 <= Records(lines, p, lang).value[i].id <= MaxInt
              && HasFixedFields(Records(lines, p, lang).value[i].fields)
    decreases |lines| - p
  {
    match SkipPast(lines, p, TopPrefix)
    case None =>
    case Some(q) =>
      match ParseRecord(lines, q, lang)
      case Err(e) =>
      case Ok((topic, n)) =>
        RecordsWellFormed(lines, n, lang);
        var rest := Records(lines, n, lang).value;
        var all := Records(lines, p, lang).value;
        assert all == [topic] + rest;
        forall i | 0 <= i < |all|
          ensures 0 <= all[i].id <= MaxInt && HasFixedFields(all[i].fields)
        {
          if i > 0 { assert all[i] == rest[i - 1]; }
        }
  }

  /** The ids of a sequence of topics. */
  function Ids(ts: seq<Topic>): set<int> {
    set t | t in ts :: t.id
  }

  /** The map holds exactly the ids put into it. */
  lemma {:induction false} StoreKeys(acc: map<int, Fields>, ts: seq<Topic>)
    ensures Store(acc, ts).Keys == acc.Keys + Ids(ts)
    decreases |ts|
  {
    if ts != [] {
      StoreKeys(acc[ts[0].id := ts[0].fields], ts[1..]);
      assert Ids(ts) == {ts[0].id} + Ids(ts[1..]) by {
        forall t | t in ts ensures t == ts[0] || t in ts[1..] {
          var i :| 0 <= i < |ts| && ts[i] == t;
          if i > 0 {
            assert ts[1..][i - 1] == t;
          }
        }
      }
    }
  }

  /** An id no topic carries keeps whatever the map held before. */
  lemma {:induction false} StoreUntouched(acc: map<int, Fields>, ts: seq<Topic>, k: int)
    requires forall j :: 0 <= j < |ts| ==> ts[j].id != k
    ensures k in Store(acc, ts) <==> k in acc
    ensures k in acc ==> Store(acc, ts)[k] == acc[k]
    decreases |ts|
  {
    if ts != [] {
      StoreUntouched(acc[ts[0].id := ts[0].fields], ts[1..], k);
    }
  }

  /** `TreeMap.put` replaces: the last topic with a given id is the one kept. */
  lemma {:induction false} StoreLastWins(acc: map<int, Fields>, ts: seq<Topic>, i: nat)
    requires i < |ts|
    requires forall j :: i < j < |ts| ==> ts[j].id != ts[i].id
    ensures ts[i].id in Store(acc, ts) && Store(acc, ts)[ts[i].id] == ts[i].fields
    decreases |ts|
  {
    if i == 0 {
      StoreUntouched(acc[ts[0].id := ts[0].fields], ts[1..], ts[0].id);
    } else {
      StoreLastWins(acc[ts[0].id := ts[0].fields], ts[1..], i - 1);
    }
  }

  /**
   * The result of the record loop, from the first line with an empty map, once
   * every record of the stream is read: its keys are the ids of the records,
   * and each id maps to the fields of the last record carrying it.
   */
  lemma ReadResult(lines: seq<string>, lang: string, ts: seq<Topic>, i: nat)
    requires Records(lines, 0, lang) == Ok(ts)
    requires i < |ts| && forall j :: i < j < |ts| ==> ts[j].id != ts[i].id
    ensures ParseFrom(lines, 0, lang, map[]).Ok?
    ensures ParseFrom(lines, 0, lang, map[]).value.Keys == Ids(ts)
    ensures ParseFrom(lines, 0, lang, map[]).value[ts[i].id] == ts[i].fields
  {
    ParseFromIsStore(lines, 0, lang, map[]);
    StoreKeys(map[], ts);
    StoreLastWins(map[], ts, i);
  }

  // ---------------------------------------------------------------------------
  // Stopping and failing

  /** Without another `<top` line the loop ends and returns the map built so far. */
  lemma NoMoreTopics(lines: seq<string>, p: nat, lang: string, acc: map<int, Fields>)
    requires p <= |lines|
    requires forall j :: p <= j < |lines| ==> !StartsWith(lines[j], TopPrefix)
    ensures ParseFrom(lines, p, lang, acc) == Ok(acc)
  {
    assert FirstMatch(lines, p, TopPrefix).None?;
  }

  /**
   * A record the stream ends inside — no `<XX-narr>` line after its `<top`
   * line — makes the whole read fail: the null the scan returns is dereferenced.
   */
  lemma TruncatedRecordFails(lines: seq<string>, p: nat, t: nat, lang: string, acc: map<int, Fields>)
    requires p <= |lines| && FirstMatch(lines, p, TopPrefix) == Some(t)
    requires forall j :: t < j < |lines| ==> !StartsWith(lines[j], OpenTag(lang, "narr"))
    ensures ParseFrom(lines, p, lang, acc) == Err(Truncated)
  {
    assert Locate(lines, t + 1, lang) == Err(Truncated) by {
      match FirstMatch(lines, t + 1, NumPrefix)
      case None =>
      case Some(mn) =>
        match FirstMatch(lines, mn + 1, OpenTag(lang, "title"))
        case None =>
        case Some(mt) =>
          match FirstMatch(lines, mt + 1, OpenTag(lang, "desc"))
          case None =>
          case Some(md) =>
            assert FirstMatch(lines, md + 1, OpenTag(lang, "narr")).None?;
    }
  }

  /** Line `m` is the first line from `from` on that starts with `prefix`, as `FirstMatch` computes it. */
  lemma FirstLineWithIsFirstMatch(lines: seq<string>, from: nat, m: nat, prefix: string)
    requires from <= |lines| && FirstLineWith(lines, from, m, prefix)
    ensures FirstMatch(lines, from, prefix) == Some(m)
  {
  }

  /**
   * The four lines one record needs after its `<top` line, each the first of
   * its kind after the one before: `<num>`, `<XX-title>`, `<XX-desc>`, `<XX-narr>`.
   */
  predicate Chain(lines: seq<string>, p: nat, lang: string, mn: nat, mt: nat, md: nat, mr: nat) {
    && FirstLineWith(lines, p, mn, NumPrefix)
    && FirstLineWith(lines, mn + 1, mt, OpenTag(lang, "title"))
    && FirstLineWith(lines, mt + 1, md, OpenTag(lang, "desc"))
    && FirstLineWith(lines, md + 1, mr, OpenTag(lang, "narr"))
  }

  /** The chain of a record's four tagged lines is there, read from line `p` on. */
  ghost predicate Complete(lines: seq<string>, p: nat, lang: string) {
    exists mn: nat, mt: nat, md: nat, mr: nat :: Chain(lines, p, lang, mn, mt, md, mr)
  }

  /** With the chain there, each scan stops at its line of the chain and the record's lines are found. */
  lemma ChainLocates(lines: seq<string>, p: nat, lang: string, mn: nat, mt: nat, md: nat, mr: nat)
    requires p <= |lines| && Chain(lines, p, lang, mn, mt, md, mr)
    ensures Locate(lines, p, lang).Ok?
  {
    FirstLineWithIsFirstMatch(lines, p, mn, NumPrefix);
    FirstLineWithIsFirstMatch(lines, mn + 1, mt, OpenTag(lang, "title"));
    FirstLineWithIsFirstMatch(lines, mt + 1, md, OpenTag(lang, "desc"));
    FirstLineWithIsFirstMatch(lines, md + 1, mr, OpenTag(lang, "narr"));
  }

  /** The lines of a record are found only along the chain of its four tagged lines. */
  lemma LocatedChain(lines: seq<string>, p: nat, lang: string)
    requires p <= |lines| && Locate(lines, p, lang).Ok?
    ensures Complete(lines, p, lang)
  {
    match FirstMatch(lines, p, NumPrefix)
    case Some(mn) =>
      match FirstMatch(lines, mn + 1, OpenTag(lang, "title"))
      case Some(mt) =>
        match FirstMatch(lines, mt + 1, OpenTag(lang, "desc"))
        case Some(md) =>
          match FirstMatch(lines, md + 1, OpenTag(lang, "narr"))
          case Some(mr) =>
            assert Chain(lines, p, lang, mn, mt, md, mr);
  }

  /**
   * The lines of a record are found exactly when the chain of its four tagged
   * lines is there. Without it, one of the scans at lines 100, 106, 113 or 133
   * reaches the end of the stream and returns null.
   */
  lemma LocateOkIff(lines: seq<string>, p: nat, lang: string)
    requires p <= |lines|
    ensures Locate(lines, p, lang).Ok? <==>
            exists mn: nat, mt: nat, md: nat, mr: nat :: Chain(lines, p, lang, mn, mt, md, mr)
  {
    if Complete(lines, p, lang) {
      var mn: nat, mt: nat, md: nat, mr: nat :| Chain(lines, p, lang, mn, mt, md, mr);
      ChainLocates(lines, p, lang, mn, mt, md, mr);
    }
    if Locate(lines, p, lang).Ok? {
      LocatedChain(lines, p, lang);
    }
  }

  /** The only way the lines of a record are not found is the end of the stream. */
  lemma LocateErrIsTruncated(lines: seq<string>, p: nat, lang: string)
    requires p <= |lines| && Locate(lines, p, lang).Err?
    ensures Locate(lines, p, lang).error == Truncated
  {
    match FirstMatch(lines, p, NumPrefix)
    case None =>
    case Some(mn) =>
      match FirstMatch(lines, mn + 1, OpenTag(lang, "title"))
      case None =>
      case Some(mt) =>
        match FirstMatch(lines, mt + 1, OpenTag(lang, "desc"))
        case None =>
        case Some(md) =>
  }

  /**
   * A record after whose `<top` line the chain of its four tagged lines is
   * missing makes the whole read fail: the null that a scan or the auxiliary
   * loop's `readLine` returns is dereferenced.
   */
  lemma IncompleteRecordFails(lines: seq<string>, p: nat, t: nat, lang: string, acc: map<int, Fields>)
    requires p <= |lines| && FirstMatch(lines, p, TopPrefix) == Some(t)
    requires !Complete(lines, t + 1, lang)
    ensures ParseFrom(lines, p, lang, acc) == Err(Truncated)
  {
    LocateOkIff(lines, t + 1, lang);
    LocateErrIsTruncated(lines, t + 1, lang);
    UnlocatedRecordFails(lines, p, t, lang, acc);
  }

  /** A record after the next `<top` line whose lines are not found ends the read with that error. */
  lemma UnlocatedRecordFails(lines: seq<string>, p: nat, t: nat, lang: string, acc: map<int, Fields>)
    requires p <= |lines| && FirstMatch(lines, p, TopPrefix) == Some(t)
    requires Locate(lines, t + 1, lang).Err?
    ensures ParseFrom(lines, p, lang, acc) == Err(Locate(lines, t + 1, lang).error)
  {
    assert SkipPast(lines, p, TopPrefix) == Some(t + 1);
  }

  /** The read fails with "Cannot find field like <EN-title>" exactly when the first 1000 characters hold no such tag. */
  lemma LanguageNotFoundIff(text: string)
    ensures Parse(text) == Err(LanguageNotFound) <==> forall j :: !LanguageTagAt(Window(text), j)
  {
  }

  // ---------------------------------------------------------------------------
  // One record

  /**
   * What a record yields: the id is the decimal value of the digits of its
   * `<num>` line, title, description and narrative are the cleaned texts of
   * their lines and override auxiliary fields of those names, and every other
   * auxiliary field is kept. The record is refused exactly when those digits
   * are none or exceed `Integer.MAX_VALUE`.
   */
  lemma BuildTopicFields(raw: RawRecord, lang: string)
    ensures var digits := DigitsOnly(IdText(raw.numLine));
            BuildTopic(raw, lang).Err? <==> digits == [] || DecimalValue(digits) > MaxInt
    ensures BuildTopic(raw, lang).Ok? ==>
              var t := BuildTopic(raw, lang).value;
              && t.id == DecimalValue(DigitsOnly(IdText(raw.numLine)))
              && t.fields.Keys == raw.aux.Keys + FixedNames
              && t.fields["title"] == Cleaned(FieldText(raw.titleLine), CloseTag(lang, "title"))
              && t.fields["description"] == Cleaned(FieldText(raw.descLine), CloseTag(lang, "desc"))
              && t.fields["narrative"] == Cleaned(FieldText(raw.narrLine), CloseTag(lang, "narr"))
              && forall k :: k in raw.aux && k !in FixedNames ==> t.fields[k] == raw.aux[k]
  {
  }

  /**
   * Once the title line `mt` is found, the auxiliary fields come from the lines
   * strictly between it and the first description line after it, and that
   * description line, which ended the auxiliary loop, is the one read as the
   * description: `reset` gives it back rather than storing it.
   */
  lemma DescriptionLineReadAgain(lines: seq<string>, mn: nat, mt: nat, lang: string)
    requires mn < mt < |lines| && LocateBody(lines, mn, mt, lang).Ok?
    ensures var (raw, next) := LocateBody(lines, mn, mt, lang).value;
            exists md :: mt < md < next - 1 && raw.descLine == lines[md]
                         && StartsWith(lines[md], OpenTag(lang, "desc"))
                         && (forall j :: mt < j < md ==> !StartsWith(lines[j], OpenTag(lang, "desc")))
                         && raw.aux == AuxFold(lines[mt + 1..md], lang)
  {
    var md := FirstMatch(lines, mt + 1, OpenTag(lang, "desc")).value;
    var mr := FirstMatch(lines, md + 1, OpenTag(lang, "narr")).value;
    assert LocateBody(lines, mn, mt, lang).value.1 == mr + 1;
  }

  /**
   * The id line is the first `<num>` line after the `<top` line, and the
   * title line the first `<XX-title>` line after the id line.
   */
  lemma LocateFinds(lines: seq<string>, p: nat, lang: string)
    requires p <= |lines| && Locate(lines, p, lang).Ok?
    ensures exists mn: nat, mt: nat ::
              && FirstLineWith(lines, p, mn, NumPrefix)
              && FirstLineWith(lines, mn + 1, mt, OpenTag(lang, "title"))
              && Locate(lines, p, lang) == LocateBody(lines, mn, mt, lang)
  {
    match FirstMatch(lines, p, NumPrefix)
    case Some(mn) =>
      match FirstMatch(lines, mn + 1, OpenTag(lang, "title"))
      case Some(mt) =>
        assert FirstLineWith(lines, p, mn, NumPrefix);
        assert FirstLineWith(lines, mn + 1, mt, OpenTag(lang, "title"));
  }

  /**
   * The description line is the first `<XX-desc>` line after the title line,
   * and the narrative line, the last line of the record, is the first
   * `<XX-narr>` line after the description line.
   */
  lemma LocateBodyFinds(lines: seq<string>, mn: nat, mt: nat, lang: string)
    requires mn < mt < |lines| && LocateBody(lines, mn, mt, lang).Ok?
    ensures var (raw, next) := LocateBody(lines, mn, mt, lang).value;
            exists md: nat ::
              && FirstLineWith(lines, mt + 1, md, OpenTag(lang, "desc")) && raw.descLine == lines[md]
              && FirstLineWith(lines, md + 1, next - 1, OpenTag(lang, "narr")) && raw.narrLine == lines[next - 1]
  {
    match FirstMatch(lines, mt + 1, OpenTag(lang, "desc"))
    case Some(md) =>
      match FirstMatch(lines, md + 1, OpenTag(lang, "narr"))
      case Some(mr) =>
        assert FirstLineWith(lines, mt + 1, md, OpenTag(lang, "desc"));
        assert FirstLineWith(lines, md + 1, mr, OpenTag(lang, "narr"));
  }

  /** `Integer.valueOf` reads back the canonical numeral of every `int` id. */
  lemma ParseIdRoundTrip(n: nat)
    requires n <= MaxInt
    ensures ParseId(DecimalString(n)) == Ok(n)
  {
    DecimalRoundTrip(n);
  }

  /** Leading zeros in the `<num>` line do not change the id. */
  lemma ParseIdLeadingZero(d: string)
    requires AllDigits(d) && d != []
    ensures AllDigits("0" + d)
    ensures ParseId("0" + d).Ok? <==> ParseId(d).Ok?
    ensures ParseId(d).Ok? ==> ParseId("0" + d) == ParseId(d)
  {
    LeadingZeroIgnored(d);
  }

  // ---------------------------------------------------------------------------
  // The auxiliary fields

  /** A name is an auxiliary field exactly when some line between title and description carries its tag. */
  lemma {:induction false} AuxFoldKeys(ls: seq<string>, lang: string, name: string)
    ensures name in AuxFold(ls, lang) <==> exists i :: 0 <= i < |ls| && FieldTag(ls[i], lang) == Some(name)
    decreases |ls|
  {
    if ls != [] {
      var init := ls[..|ls| - 1];
      AuxFoldKeys(init, lang, name);
      if exists i :: 0 <= i < |ls| && FieldTag(ls[i], lang) == Some(name) {
        var i :| 0 <= i < |ls| && FieldTag(ls[i], lang) == Some(name);
        if i < |ls| - 1 {
          assert init[i] == ls[i];
        }
      }
      if exists i :: 0 <= i < |init| && FieldTag(init[i], lang) == Some(name) {
        var i :| 0 <= i < |init| && FieldTag(init[i], lang) == Some(name);
        assert ls[i] == init[i];
      }
    }
  }

  /** The `fields.put` of a later line with the same name replaces an earlier one. */
  lemma {:induction false} AuxFoldLastWins(ls: seq<string>, lang: string, i: nat, name: string)
    requires i < |ls| && FieldTag(ls[i], lang) == Some(name)
    requires forall j :: i < j < |ls| ==> FieldTag(ls[j], lang) != Some(name)
    ensures name in AuxFold(ls, lang) && AuxFold(ls, lang)[name] == AuxValue(ls[i], lang, name)
    decreases |ls|, 1
  {
    if i < |ls| - 1 {
      AuxFoldLastWinsEarlier(ls, lang, i, name);
    } else {
      AuxStepPuts(AuxFold(ls[..|ls| - 1], lang), ls[i], lang, name);
    }
  }

  /** `AuxFoldLastWins` when the line is not the last one: the last line keeps what the earlier ones stored. */
  lemma {:induction false} AuxFoldLastWinsEarlier(ls: seq<string>, lang: string, i: nat, name: string)
    requires i < |ls| - 1 && FieldTag(ls[i], lang) == Some(name)
    requires forall j :: i < j < |ls| ==> FieldTag(ls[j], lang) != Some(name)
    ensures name in AuxFold(ls, lang) && AuxFold(ls, lang)[name] == AuxValue(ls[i], lang, name)
    decreases |ls|, 0
  {
    var init := ls[..|ls| - 1];
    var f := AuxFold(init, lang);
    assert name in f && f[name] == AuxValue(ls[i], lang, name) by {
      assert init[i] == ls[i];
      assert forall j :: i < j < |init| ==> init[j] == ls[j];
      AuxFoldLastWins(init, lang, i, name);
    }
    AuxStepKeeps(f, ls[|ls| - 1], lang, name);
  }

  /** A line whose tag names `name` puts its value under `name`. */
  lemma AuxStepPuts(f: Fields, line: string, lang: string, name: string)
    requires FieldTag(line, lang) == Some(name)
    ensures name in AuxStep(f, line, lang) && AuxStep(f, line, lang)[name] == AuxValue(line, lang, name)
  {}

  /** A line whose tag names another field leaves `name` as it was. */
  lemma AuxStepKeeps(f: Fields, line: string, lang: string, name: string)
    requires name in f && FieldTag(line, lang) != Some(name)
    ensures name in AuxStep(f, line, lang) && AuxStep(f, line, lang)[name] == f[name]
  {}

  /** `NameRun` is the whole of a run of name characters that ends where they do. */
  lemma {:induction false} NameRunExact(s: string, j: nat, n: nat)
    requires j + n <= |s|
    requires forall k :: j <= k < j + n ==> IsNameChar(s[k])
    requires j + n < |s| ==> !IsNameChar(s[j + n])
    ensures NameRun(s, j) == n
    decreases n
  {
    if n > 0 {
      NameRunExact(s, j + 1, n - 1);
    }
  }

  /**
   * `<XX-([\w-]+)>` captures `name` at index `i` exactly when the line holds the
   * opening tag of `name` there and `name` is a non-empty run of `[\w-]`.
   */
  lemma FieldTagAtIff(line: string, i: nat, lang: string, name: string)
    requires i <= |line|
    ensures FieldTagAt(line, i, lang) == Some(name) <==> IsFieldName(name) && OccursAt(line, i, OpenTag(lang, name))
  {
    if FieldTagAt(line, i, lang) == Some(name) {
      FieldTagAtOccurs(line, i, lang);
    }
    if IsFieldName(name) && OccursAt(line, i, OpenTag(lang, name)) {
      OccursFieldTagAt(line, i, lang, name);
    }
  }

  /** A capture is a field name whose opening tag is where the match starts. */
  lemma FieldTagAtOccurs(line: string, i: nat, lang: string)
    requires i <= |line| && FieldTagAt(line, i, lang).Some?
    ensures var name := FieldTagAt(line, i, lang).value;
            IsFieldName(name) && OccursAt(line, i, OpenTag(lang, name))
  {
    var open := "<" + lang + "-";
    var j := i + |open|;
    var n := NameRun(line, j);
    var name := line[j..j + n];
    var tag := OpenTag(lang, name);
    assert tag == open + name + ">";
    assert line[i..i + |tag|] == line[i..j] + line[j..j + n] + [line[j + n]];
  }

  /** An opening tag whose name is a run of `[\w-]` is captured whole: the run stops at its `>`. */
  lemma OccursFieldTagAt(line: string, i: nat, lang: string, name: string)
    requires i <= |line| && IsFieldName(name) && OccursAt(line, i, OpenTag(lang, name))
    ensures FieldTagAt(line, i, lang) == Some(name)
  {
    var open := "<" + lang + "-";
    var j := i + |open|;
    var tag := OpenTag(lang, name);
    var n := |name|;
    assert tag == open + name + ">";
    assert line[i..j] == open by {
      assert line[i..i + |tag|][..|open|] == line[i..j];
    }
    assert line[j..j + n] == name by {
      assert line[i..i + |tag|][|open|..|open| + n] == line[j..j + n];
    }
    assert line[j + n] == '>' by {
      assert line[i..i + |tag|][|open| + n] == line[j + n];
    }
    forall k | j <= k < j + n ensures IsNameChar(line[k]) {
      assert line[k] == name[k - j];
    }
    NameRunExact(line, j, n);
  }

  // ---------------------------------------------------------------------------
  // The language code

  /** `<([A-Z]{2})-title>` matches at `i` exactly when the opening title tag of a two-letter upper-case code sits there. */
  lemma LanguageTagAtIff(w: string, i: nat, lang: string)
    ensures (LanguageTagAt(w, i) && w[i + 1..i + 3] == lang)
            <==> (|lang| == 2 && IsUpper(lang[0]) && IsUpper(lang[1]) && OccursAt(w, i, OpenTag(lang, "title")))
  {
    var tag := OpenTag(lang, "title");
    if LanguageTagAt(w, i) && w[i + 1..i + 3] == lang {
      assert w[i..i + 10] == [w[i]] + w[i + 1..i + 3] + w[i + 3..i + 10];
    }
    if |lang| == 2 && OccursAt(w, i, tag) {
      assert |tag| == 10;
      assert w[i..i + 10][0] == w[i] && w[i..i + 10][1..3] == w[i + 1..i + 3] && w[i..i + 10][3..] == w[i + 3..i + 10];
    }
  }
}
