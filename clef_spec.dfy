/**
 * What ClefTopicReader computes, as functions of the input: the language code
 * found in the first 1000 characters, the prefix scan over lines, the auxiliary
 * field pattern, one topic record, and the whole id-keyed map.
 */
module ClefSpec {
  import opened Common
  import opened Text
  import LineStream

  /** A topic's fields by name: Java's `Map<String, String>`. */
  type Fields = map<string, string>

  datatype Topic = Topic(id: int, fields: Fields)

  /** The unchecked exceptions a record can raise. */
  datatype RecordError =
    | Truncated                 // a scan or readLine returned null inside a record and was dereferenced
    | InvalidId(digits: string) // Integer.valueOf rejected the digits (none left, or beyond Integer.MAX_VALUE)

  /** Why `read` gives no map. */
  datatype ReadError =
    | LanguageNotFound          // IOException "Cannot find field like <EN-title>"
    | BadRecord(cause: RecordError)

  /** How many characters `extract` peeks at. */
  const PeekLength: nat := 1000

  /** Integer.MAX_VALUE: the topic id is a Java `int`. */
  const MaxInt: int := 0x7fff_ffff

  // ---------------------------------------------------------------------------
  // Language-code discovery: the pattern <([A-Z]{2})-title>

  /** The first characters of the stream that `extract` looks at. */
  function Window(text: string): (w: string)
    ensures |w| <= PeekLength && w <= text
    ensures |w| < PeekLength ==> w == text
  {
    LineStream.Prefix(text, PeekLength)
  }

  /** `<XX-title>` with `XX` two letters A-Z starts at index `i` of `w`. */
  predicate LanguageTagAt(w: string, i: int) {
    0 <= i && i + 10 <= |w| && w[i] == '<' && IsUpper(w[i + 1]) && IsUpper(w[i + 2])
    && w[i + 3..i + 10] == "-title>"
  }

  function FindLanguageFrom(w: string, i: nat): (r: Option<nat>)
    requires i <= |w|
    ensures r.Some? ==> i <= r.value && LanguageTagAt(w, r.value)
    ensures r.Some? ==> forall j :: i <= j < r.value ==> !LanguageTagAt(w, j)
    ensures r.None? ==> forall j :: i <= j ==> !LanguageTagAt(w, j)
    decreases |w| - i
  {
    if LanguageTagAt(w, i) then Some(i)
    else if i == |w| then None
    else FindLanguageFrom(w, i + 1)
  }

  /** A two-letter upper-case language code, as `<([A-Z]{2})-title>` captures it. */
  predicate IsLanguage(lang: string) {
    |lang| == 2 && IsUpper(lang[0]) && IsUpper(lang[1])
  }

  /**
   * `Matcher.find` then `group(1)`: the two letters of the leftmost `<XX-title>`
   * in `w`, or `None` when there is none.
   */
  function FindLanguage(w: string): (r: Option<string>)
    ensures r.None? <==> forall j :: !LanguageTagAt(w, j)
    ensures r.Some? ==> exists i :: LanguageTagAt(w, i) && (forall j :: 0 <= j < i ==> !LanguageTagAt(w, j))
                                    && r.value == w[i + 1..i + 3]
    ensures r.Some? ==> IsLanguage(r.value)
  {
    match FindLanguageFrom(w, 0)
    case None => None
    case Some(i) => Some(w[i + 1..i + 3])
  }

  // ---------------------------------------------------------------------------
  // Tags

  function OpenTag(lang: string, name: string): string { "<" + lang + "-" + name + ">" }

  function CloseTag(lang: string, name: string): string { "</" + lang + "-" + name + ">" }

  const TopPrefix: string := "<top"
  const NumPrefix: string := "<num>"
  const NumClose: string := "</num>"

  // ---------------------------------------------------------------------------
  // The auxiliary field pattern <XX-([\w-]+)>

  /** A capture of `[\w-]+`. */
  predicate IsFieldName(name: string) {
    name != [] && forall k :: 0 <= k < |name| ==> IsNameChar(name[k])
  }

  /** The length of the longest run of `[\w-]` characters starting at `i`. */
  function NameRun(s: string, i: nat): (n: nat)
    requires i <= |s|
    ensures i + n <= |s|
    ensures forall k :: i <= k < i + n ==> IsNameChar(s[k])
    ensures i + n < |s| ==> !IsNameChar(s[i + n])
    decreases |s| - i
  {
    if i < |s| && IsNameChar(s[i]) then 1 + NameRun(s, i + 1) else 0
  }

  /**
   * The pattern matched at index `i`. The greedy `[\w-]+` takes the whole run of
   * name characters; backing off never helps, since `>` is not one of them.
   */
  function FieldTagAt(line: string, i: nat, lang: string): (r: Option<string>)
    requires i <= |line|
    ensures r.Some? ==> IsFieldName(r.value)
  {
    var open := "<" + lang + "-";
    if !OccursAt(line, i, open) then None
    else
      var j := i + |open|;
      var n := NameRun(line, j);
      if n > 0 && j + n < |line| && line[j + n] == '>' then Some(line[j..j + n]) else None
  }

  /** Where `Matcher.find` from index `i` finds the pattern: the leftmost index it matches at. */
  function FindFieldTag(line: string, i: nat, lang: string): (r: Option<nat>)
    requires i <= |line|
    ensures r.Some? ==> i <= r.value <= |line| && FieldTagAt(line, r.value, lang).Some?
    ensures r.Some? ==> forall j :: i <= j < r.value ==> FieldTagAt(line, j, lang).None?
    ensures r.None? ==> forall j :: i <= j <= |line| ==> FieldTagAt(line, j, lang).None?
    decreases |line| - i
  {
    if FieldTagAt(line, i, lang).Some? then Some(i)
    else if i == |line| then None
    else FindFieldTag(line, i + 1, lang)
  }

  /** `fieldPattern.matcher(line).find()` and `group(1)`: the name in the leftmost match. */
  function FieldTag(line: string, lang: string): (r: Option<string>)
    ensures r.Some? ==> IsFieldName(r.value)
  {
    match FindFieldTag(line, 0, lang)
    case None => None
    case Some(k) => FieldTagAt(line, k, lang)
  }

  /** The stored value of an auxiliary line: first opening tag, then first closing tag removed, trimmed. */
  function AuxValue(line: string, lang: string, name: string): (v: string)
    ensures Trimmed(v)
  {
    Trim(RemoveFirst(Trim(RemoveFirst(line, OpenTag(lang, name))), CloseTag(lang, name)))
  }

  /** What one line read in the auxiliary loop does to the per-topic map. */
  function AuxStep(f: Fields, line: string, lang: string): Fields {
    match FieldTag(line, lang)
    case None => f
    case Some(name) => f[name := AuxValue(line, lang, name)]
  }

  /** The auxiliary fields the lines `ls` put into the per-topic map, in order. */
  function AuxFold(ls: seq<string>, lang: string): Fields
    decreases |ls|
  {
    if ls == [] then map[] else AuxStep(AuxFold(ls[..|ls| - 1], lang), ls[|ls| - 1], lang)
  }

  /** Every field the auxiliary loop stores is named by a tag and holds a trimmed value. */
  lemma {:induction false} AuxFoldWellFormed(ls: seq<string>, lang: string)
    ensures forall k :: k in AuxFold(ls, lang) ==> IsFieldName(k) && Trimmed(AuxFold(ls, lang)[k])
    decreases |ls|
  {
    if ls != [] {
      var init := ls[..|ls| - 1];
      AuxFoldWellFormed(init, lang);
      var f := AuxFold(init, lang);
      assert AuxFold(ls, lang) == AuxStep(f, ls[|ls| - 1], lang);
    }
  }

  /** One more line read in the auxiliary loop. */
  lemma AuxFoldSnoc(ls: seq<string>, line: string, lang: string)
    ensures AuxFold(ls + [line], lang) == AuxStep(AuxFold(ls, lang), line, lang)
  {
    assert (ls + [line])[..|ls|] == ls;
  }
  /** The auxiliary fold over lines `start` to `i`, one line longer. */
  lemma AuxFoldExtend(lines: seq<string>, start: nat, i: nat, lang: string)
    requires start <= i < |lines|
    ensures AuxFold(lines[start..i + 1], lang) == AuxStep(AuxFold(lines[start..i], lang), lines[i], lang)
  {
    assert lines[start..i + 1] == lines[start..i] + [lines[i]];
    AuxFoldSnoc(lines[start..i], lines[i], lang);
  }


  // ---------------------------------------------------------------------------
  // The prefix scan over lines

  /** The index of the first line at or after `p` that starts with `prefix`. */
  function FirstMatch(lines: seq<string>, p: nat, prefix: string): (r: Option<nat>)
    requires p <= |lines|
    ensures r.Some? ==> p <= r.value < |lines| && StartsWith(lines[r.value], prefix)
    ensures r.Some? ==> forall j :: p <= j < r.value ==> !StartsWith(lines[j], prefix)
    ensures r.None? ==> forall j :: p <= j < |lines| ==> !StartsWith(lines[j], prefix)
    decreases |lines| - p
  {
    if p == |lines| then None
    else if StartsWith(lines[p], prefix) then Some(p)
    else FirstMatch(lines, p + 1, prefix)
  }

  /** Line `m` is the first line from `from` on that starts with `prefix`. */
  predicate FirstLineWith(lines: seq<string>, from: nat, m: int, prefix: string) {
    from <= m < |lines| && StartsWith(lines[m], prefix)
    && forall j :: from <= j < m ==> !StartsWith(lines[j], prefix)
  }

  /** The lines joined, `sep` between neighbours. */
  function Join(xs: seq<string>, sep: string): string
    decreases |xs|
  {
    if |xs| == 0 then "" else if |xs| == 1 then xs[0] else Join(xs[..|xs| - 1], sep) + sep + xs[|xs| - 1]
  }

  lemma JoinSnoc(xs: seq<string>, x: string, sep: string)
    ensures Join(xs + [x], sep) == if xs == [] then x else Join(xs, sep) + sep + x
  {
    assert (xs + [x])[..|xs|] == xs;
  }

  /** The lines the scan appends: the skipped ones if `collectAll`, then the match if `collectMatchLine`. */
  function Collected(lines: seq<string>, p: nat, m: nat, collectMatchLine: bool, collectAll: bool): seq<string>
    requires p <= m < |lines|
  {
    (if collectAll then lines[p..m] else []) + (if collectMatchLine then [lines[m]] else [])
  }

  /**
   * The helper `read(reader, prefix, sb, collectMatchLine, collectAll)` started at
   * line `p`: `None` for Java's null, otherwise the builder's text and the line
   * the reader then stands at.
   */
  function Scan(lines: seq<string>, p: nat, prefix: string, sb: string,
                collectMatchLine: bool, collectAll: bool, newline: string): (r: Option<(string, nat)>)
    requires p <= |lines|
    ensures r.None? <==> forall j :: p <= j < |lines| ==> !StartsWith(lines[j], prefix)
    ensures r.Some? ==> p < r.value.1 <= |lines| && StartsWith(lines[r.value.1 - 1], prefix)
    ensures r.Some? ==> forall j :: p <= j < r.value.1 - 1 ==> !StartsWith(lines[j], prefix)
  {
    match FirstMatch(lines, p, prefix)
    case None => None
    case Some(m) => Some((sb + Join(Collected(lines, p, m, collectMatchLine, collectAll), newline), m + 1))
  }

  /** The scan stops at the first line starting with `prefix`. */
  lemma ScanStopsAt(lines: seq<string>, p: nat, m: nat, prefix: string, sb: string,
                    collectMatchLine: bool, collectAll: bool, newline: string)
    requires p <= m < |lines| && StartsWith(lines[m], prefix)
    requires forall j :: p <= j < m ==> !StartsWith(lines[j], prefix)
    ensures Scan(lines, p, prefix, sb, collectMatchLine, collectAll, newline)
            == Some((sb + Join(Collected(lines, p, m, collectMatchLine, collectAll), newline), m + 1))
  {
    assert FirstMatch(lines, p, prefix) == Some(m);
  }

  /**
   * With `collectMatchLine` and without `collectAll`, as every call in the
   * reader except the `<top` scan of the record loop makes it, the scan yields
   * exactly the first matching line.
   */
  lemma ScanMatchLine(lines: seq<string>, p: nat, prefix: string, sb: string, newline: string)
    requires p <= |lines|
    ensures Scan(lines, p, prefix, sb, true, false, newline)
            == match FirstMatch(lines, p, prefix)
               case None => None
               case Some(m) => Some((sb + lines[m], m + 1))
  {
    match FirstMatch(lines, p, prefix)
    case None =>
    case Some(m) =>
      assert Collected(lines, p, m, true, false) == [lines[m]];
  }

  // ---------------------------------------------------------------------------
  // One topic

  /** The id text of a `<num>` line before the digits are picked out. */
  function IdText(line: string): (t: string)
    ensures Trimmed(t)
  {
    Trim(RemoveAll(AfterFirstGt(line), NumClose))
  }

  /** A title, description or narrative line as first read: after the first `>`, trimmed. */
  function FieldText(line: string): (t: string)
    ensures Trimmed(t)
  {
    Trim(AfterFirstGt(line))
  }

  /** The clean-up of a fixed field: every closing tag removed, trimmed again. */
  function Cleaned(text: string, close: string): (r: string)
    requires close != []
    ensures Trimmed(r)
  {
    Trim(RemoveAll(text, close))
  }

  /** `Integer.valueOf` on a string of decimal digits. */
  function ParseId(digits: string): (r: Result<int, RecordError>)
    requires AllDigits(digits)
    ensures r.Ok? <==> digits != [] && DecimalValue(digits) <= MaxInt
    ensures r.Ok? ==> 0 <= r.value <= MaxInt
    ensures r.Err? ==> r.error == InvalidId(digits)
  {
    if digits == [] || DecimalValue(digits) > MaxInt then Err(InvalidId(digits))
    else Ok(DecimalValue(digits))
  }

  predicate HasFixedFields(f: Fields) {
    "title" in f && "description" in f && "narrative" in f
  }

  /** The names the three `fields.put` calls after the auxiliary loop write. */
  const FixedNames: set<string> := {"title", "description", "narrative"}

  /**
   * The per-topic map once title, description and narrative are put into the
   * auxiliary fields: those three keys hold the fixed values, whatever an
   * auxiliary line stored under them, and every other auxiliary field is kept.
   */
  function WithFixed(aux: Fields, title: string, description: string, narrative: string): (f: Fields)
    ensures f.Keys == aux.Keys + FixedNames
    ensures f["title"] == title && f["description"] == description && f["narrative"] == narrative
    ensures forall k :: k in aux && k !in FixedNames ==> f[k] == aux[k]
  {
    aux["title" := title]["description" := description]["narrative" := narrative]
  }

  /**
   * The lines one record is made of, as the record loop finds them: the id
   * line, the title line, the auxiliary fields of the lines between the title
   * and the description, the description line and the narrative line.
   */
  datatype RawRecord = RawRecord(numLine: string, titleLine: string, aux: Fields,
                                 descLine: string, narrLine: string)

  /**
   * The clean-up and the `fields.put` calls after the narrative is read: the
   * text after each line's first `>`, trimmed; the id's digits picked out and
   * parsed; the closing tags stripped; the three fixed fields put after the
   * auxiliary ones.
   */
  function BuildTopic(raw: RawRecord, lang: string): (r: Result<Topic, RecordError>)
    ensures r.Ok? ==> 0 <= r.value.id <= MaxInt
    ensures r.Ok? ==> HasFixedFields(r.value.fields)
    ensures r.Ok? ==> Trimmed(r.value.fields["title"]) && Trimmed(r.value.fields["description"])
                      && Trimmed(r.value.fields["narrative"])
  {
    var digits := DigitsOnly(IdText(raw.numLine));
    match ParseId(digits)
    case Err(e) => Err(e)
    case Ok(n) =>
      Ok(Topic(n, WithFixed(raw.aux, Cleaned(FieldText(raw.titleLine), CloseTag(lang, "title")),
                            Cleaned(FieldText(raw.descLine), CloseTag(lang, "desc")),
                            Cleaned(FieldText(raw.narrLine), CloseTag(lang, "narr")))))
  }

  /**
   * The lines of the record whose `<top` line is line `p - 1`, and the line
   * after its `<XX-narr>` line; `Truncated` when the stream ends first. The id
   * line is the first `<num>` line from `p` on and the title line the first
   * `<XX-title>` line after it.
   */
  function Locate(lines: seq<string>, p: nat, lang: string): (r: Result<(RawRecord, nat), RecordError>)
    requires p <= |lines|
    ensures r.Ok? ==> p < r.value.1 <= |lines|
  {
    match FirstMatch(lines, p, NumPrefix)
    case None => Err(Truncated)
    case Some(mn) =>
      match FirstMatch(lines, mn + 1, OpenTag(lang, "title"))
      case None => Err(Truncated)
      case Some(mt) => LocateBody(lines, mn, mt, lang)
  }

  /**
   * `Locate` once the id line `mn` and the title line `mt` are found: the
   * description line is the first `<XX-desc>` line after the title line and
   * the narrative line the first `<XX-narr>` line after that, where the scan
   * stops.
   */
  function LocateBody(lines: seq<string>, mn: nat, mt: nat, lang: string): (r: Result<(RawRecord, nat), RecordError>)
    requires mn < mt < |lines|
    ensures r.Ok? ==> mt < r.value.1 <= |lines|
    ensures r.Ok? ==> r.value.0.numLine == lines[mn] && r.value.0.titleLine == lines[mt]
  {
    match FirstMatch(lines, mt + 1, OpenTag(lang, "desc"))
    case None => Err(Truncated)
    case Some(md) =>
      match FirstMatch(lines, md + 1, OpenTag(lang, "narr"))
      case None => Err(Truncated)
      case Some(mr) => Ok((RawRecord(lines[mn], lines[mt], AuxFold(lines[mt + 1..md], lang), lines[md], lines[mr]), mr + 1))
  }

  /** One pass of the record loop after its `<top` line, which is line `p - 1`. */
  function ParseRecord(lines: seq<string>, p: nat, lang: string): (r: Result<(Topic, nat), RecordError>)
    requires p <= |lines|
    ensures r.Ok? ==> p < r.value.1 <= |lines|
    ensures r.Ok? ==> 0 <= r.value.0.id <= MaxInt && HasFixedFields(r.value.0.fields)
  {
    match Locate(lines, p, lang)
    case Err(e) => Err(e)
    case Ok((raw, next)) =>
      match BuildTopic(raw, lang)
      case Err(e) => Err(e)
      case Ok(topic) => Ok((topic, next))
  }

  // ---------------------------------------------------------------------------
  // The whole stream

  /** The line after the next one from `p` on that starts with `prefix`, if there is one. */
  function SkipPast(lines: seq<string>, p: nat, prefix: string): (r: Option<nat>)
    requires p <= |lines|
    ensures r.Some? ==> p < r.value <= |lines|
  {
    match FirstMatch(lines, p, prefix)
    case None => None
    case Some(m) => Some(m + 1)
  }

  /** The record loop from line `p`, with `acc` the map built so far. */
  function ParseFrom(lines: seq<string>, p: nat, lang: string, acc: map<int, Fields>): (r: Result<map<int, Fields>, RecordError>)
    requires p <= |lines|
    ensures r.Ok? ==> acc.Keys <= r.value.Keys
    ensures r.Ok? ==> forall k :: k in r.value ==>
                        (k in acc && r.value[k] == acc[k]) || (0 <= k <= MaxInt && HasFixedFields(r.value[k]))
    decreases |lines| - p
  {
    match SkipPast(lines, p, TopPrefix)
    case None => Ok(acc)
    case Some(q) =>
      match ParseRecord(lines, q, lang)
      case Err(e) => Err(e)
      case Ok((topic, n)) => ParseFrom(lines, n, lang, acc[topic.id := topic.fields])
  }

  /** `read(BufferedReader)` on a stream holding `text`. */
  function Parse(text: string): (r: Result<map<int, Fields>, ReadError>)
    ensures r.Ok? ==> forall k :: k in r.value ==> 0 <= k <= MaxInt && HasFixedFields(r.value[k])
  {
    match FindLanguage(Window(text))
    case None => Err(LanguageNotFound)
    case Some(lang) =>
      match ParseFrom(LineStream.LinesOf(text), 0, lang, map[])
      case Err(e) => Err(BadRecord(e))
      case Ok(m) => Ok(m)
  }

  /** The topics of the stream from line `p`, in file order: a reference for the map. */
  function Records(lines: seq<string>, p: nat, lang: string): Result<seq<Topic>, RecordError>
    requires p <= |lines|
    decreases |lines| - p
  {
    match SkipPast(lines, p, TopPrefix)
    case None => Ok([])
    case Some(q) =>
      match ParseRecord(lines, q, lang)
      case Err(e) => Err(e)
      case Ok((topic, n)) =>
        match Records(lines, n, lang)
        case Err(e) => Err(e)
        case Ok(rest) => Ok([topic] + rest)
  }

  /** `map.put(id, fields)` for each topic in turn. */
  function Store(acc: map<int, Fields>, ts: seq<Topic>): map<int, Fields>
    decreases |ts|
  {
    if ts == [] then acc else Store(acc[ts[0].id := ts[0].fields], ts[1..])
  }
}
