# ClefTopicReader in Dafny

A model of Anserini's reader for CLEF topic files in SGML. Each topic sits
between a `<top>` line and the next `<top` line. Its id is on a `<num>` line.
Its title, description and narrative are each on one line, tagged with the
file's two-letter language code (`<EN-title>`, `<EN-desc>`, `<EN-narr>`).
Any other `<EN-name>` line between the title and the description is an extra
field. The reader first finds the language code in the first 1000 characters
of the stream. It then walks through the lines with a prefix-scan helper and
builds a `SortedMap` from each topic id to that topic's fields.

The project has these modules:

- `Common`: `Option` and `Result`.
- `Text`: the Java string operations the reader uses. These are `startsWith`,
  `indexOf`, `substring(indexOf(">") + 1)`, literal `replaceAll`/`replaceFirst`,
  `trim` (which strips every character at or below U+0020) and
  `replaceAll("[^0-9]", "")`. It also has the decimal value that
  `Integer.valueOf` parses.
- `LineStream`: the `BufferedReader` as a class over a fixed text.
  - `readLine` treats `\n`, `\r` and `\r\n` as line ends.
  - The cursor counts the lines consumed so far.
  - `mark` and `reset` save and restore that cursor.
  - A peek reads the first characters without consuming anything.
- `ClefSpec`: what the reader computes, written as pure functions.
  - The leftmost `<([A-Z]{2})-title>` in the first 1000 characters.
  - The prefix scan.
  - The field pattern `<XX-([\w-]+)>`, leftmost and greedy.
  - One record, and the clean-up of its fields.
  - `Parse`: the whole `read(BufferedReader)`.
- `ClefTopicReader`: the reader's own loops, written as methods on a
  `LineReader`. Each method is proved to compute the `ClefSpec` function it
  stands for.
- `ClefProperties`: what the output means.
  - The map is the records put in file order, so for a repeated id the last
    record wins.
  - An extra field holds the value of the last line that carries its name.
  - The fixed fields override extra fields of the same name.
  - The regular expressions match what they say.
  - The failure cases.
- `ClefRoundTrip`: the text of a topic file written in the layout above, with
  any of the three line endings, is read back as the topics written.
- `SortedKeys`: the ascending key order of a `TreeMap` (`firstKey`/`lastKey`).
- `ClefExamples`: the two-topic file of the unit test.

Java's exceptions become error values:

- A null line that gets dereferenced becomes `Truncated`.
- `NumberFormatException` from `Integer.valueOf` becomes `InvalidId`.
- The `IOException` for a missing language tag becomes `LanguageNotFound`.

The model follows what the code does, including in these cases:

- A truncated record causes a `NullPointerException`, so the whole read
  fails. Records are not silently dropped.
- Each field is taken from its one tagged line only.
- An id that does not fit a Java `int` makes the read fail.

## Model

| member | source | states |
|---|---|---|
| ClefTopicReader.ReadUntil | src/main/java/io/anserini/search/topicreader/ClefTopicReader.java:44-66 | Java's null (`None`) exactly when no line from the cursor on starts with the prefix, and the reader is then at the end. Otherwise: the initial builder text. Then, joined by the newline separator, the skipped lines if `collectAll` and the matching line if `collectMatchLine`. The reader stands just past the first matching line. |
| ClefSpec.Scan | src/main/java/io/anserini/search/topicreader/ClefTopicReader.java:44-66 | `None` iff no line from `p` on starts with the prefix. Otherwise the next cursor is one past a matching line, and no line before that one matches. |
| ClefSpec.FirstMatch | src/main/java/io/anserini/search/topicreader/ClefTopicReader.java:48-59 | When some line matches: the index of the first line at or after `p` that starts with the prefix, with no earlier line matching. Otherwise `None`, and then no line from `p` on matches. |
| ClefSpec.JoinSnoc | src/main/java/io/anserini/search/topicreader/ClefTopicReader.java:54-63 | Appending `sep + line` to the builder and setting `sep` to the newline adds one more line to the newline-joined text. The first line gets no separator. |
| ClefSpec.ScanStopsAt | src/main/java/io/anserini/search/topicreader/ClefTopicReader.java:48-59 | The scan stops at the first line starting with the prefix. It returns the collected lines, and the cursor is one past that line. |
| ClefSpec.ScanMatchLine | src/main/java/io/anserini/search/topicreader/ClefTopicReader.java:53-58 | Every call in the reader except the `<top` scan on line 97 sets `collectMatchLine` and does not set `collectAll`. Such a call yields exactly the first matching line, or null when there is none. |
| ClefTopicReader.ReadMatchLine | src/main/java/io/anserini/search/topicreader/ClefTopicReader.java:100 | `read(reader, prefix, null, true, false)`: the first line at or after the cursor that starts with the prefix, with the cursor after it. `None` when no such line is left. |
| ClefTopicReader.SkipTo | src/main/java/io/anserini/search/topicreader/ClefTopicReader.java:97 | The record loop's condition holds iff a `<top` line is left. The reader then stands just past that line. |
| ClefSpec.SkipPast | src/main/java/io/anserini/search/topicreader/ClefTopicReader.java:97 | When it finds a line, the cursor strictly advances and stays within the stream. |
| ClefTopicReader.Extract | src/main/java/io/anserini/search/topicreader/ClefTopicReader.java:68-86 | The language code of the leftmost `<XX-title>` match in the first 1000 characters. `LanguageNotFound` when there is none. The reader's cursor is not moved. |
| LineStream.LineReader.Peek | src/main/java/io/anserini/search/topicreader/ClefTopicReader.java:71-75 | `mark`, `read(buffer, 0, n)`, `reset` at the start of the stream: the first `n` characters of the text, or the whole text when it is shorter. |
| ClefSpec.Window | src/main/java/io/anserini/search/topicreader/ClefTopicReader.java:71-75 | The text `extract` searches is at most 1000 characters long and a prefix of the stream. It is the whole stream when the stream is shorter. |
| ClefSpec.FindLanguageFrom | src/main/java/io/anserini/search/topicreader/ClefTopicReader.java:77-79 | The leftmost index at or after `i` where `<([A-Z]{2})-title>` matches, with no match before it. `None` iff there is no match at or after `i`. |
| ClefSpec.FindLanguage | src/main/java/io/anserini/search/topicreader/ClefTopicReader.java:77-83 | `None` iff the window holds no `<XX-title>`. Otherwise `group(1)` of the leftmost match: two upper-case letters. |
| ClefProperties.LanguageTagAtIff | src/main/java/io/anserini/search/topicreader/ClefTopicReader.java:77-80 | A language tag with letters `lang` starts at `i` iff `lang` is two letters A-Z and `<lang-title>` occurs at `i`. So the code `extract` returns names the tag that the title scan (line 106) looks for. |
| ClefProperties.LanguageNotFoundIff | src/main/java/io/anserini/search/topicreader/ClefTopicReader.java:79-83 | `read` fails with the missing-language error iff no `<XX-title>` occurs in the first 1000 characters. |
| ClefSpec.NameRun | src/main/java/io/anserini/search/topicreader/ClefTopicReader.java:110 | The greedy `[\w-]` run that starts at `i`: every character in it is a name character, and the character after it is not. |
| ClefProperties.NameRunExact | src/main/java/io/anserini/search/topicreader/ClefTopicReader.java:110 | A maximal run of name characters is the one greedy `[\w-]+` takes. |
| ClefSpec.FindFieldTag | src/main/java/io/anserini/search/topicreader/ClefTopicReader.java:118-119 | `matcher.find()`: the leftmost index where `<XX-([\w-]+)>` matches, with no match before it. `None` iff it matches nowhere in the line. |
| ClefProperties.FieldTagAtIff | src/main/java/io/anserini/search/topicreader/ClefTopicReader.java:110 | The field pattern matches at `i` with `group(1) == name` iff `name` is a non-empty string of `[\w-]` characters and `<XX-name>` occurs at `i`. |
| ClefProperties.FieldTagAtOccurs | src/main/java/io/anserini/search/topicreader/ClefTopicReader.java:118-120 | Whatever the pattern captures at `i` is a field name whose opening tag occurs at `i`. |
| ClefProperties.OccursFieldTagAt | src/main/java/io/anserini/search/topicreader/ClefTopicReader.java:118-120 | An opening tag `<XX-name>` with a `[\w-]+` name, occurring at `i`, is matched there with that name. |
| ClefSpec.FieldTagAt | src/main/java/io/anserini/search/topicreader/ClefTopicReader.java:110 | What the field pattern captures at `i` is a non-empty run of `[\w-]` characters. |
| ClefSpec.FieldTag | src/main/java/io/anserini/search/topicreader/ClefTopicReader.java:118-120 | What `matcher.find()` captures as `group(1)` is a non-empty run of `[\w-]` characters. |
| ClefSpec.AuxValue | src/main/java/io/anserini/search/topicreader/ClefTopicReader.java:121-122 | The value stored for an extra line has no blank at either end. |
| ClefTopicReader.PutAuxField | src/main/java/io/anserini/search/topicreader/ClefTopicReader.java:118-124 | One extra line. With no match the map is unchanged. Otherwise the captured name maps to the line with its first opening tag and then its first closing tag removed, trimmed after each step. |
| ClefProperties.AuxStepPuts | src/main/java/io/anserini/search/topicreader/ClefTopicReader.java:120-123 | A line whose match captures `name` stores its cleaned value under `name`. |
| ClefProperties.AuxStepKeeps | src/main/java/io/anserini/search/topicreader/ClefTopicReader.java:118-124 | A line whose match does not capture `name` leaves the value under `name` alone. |
| ClefTopicReader.ReadAuxFields | src/main/java/io/anserini/search/topicreader/ClefTopicReader.java:111-125 | Null dereference (`None`) when no `<XX-desc>` line is left. Otherwise: the extra fields that the lines between the cursor and the first `<XX-desc>` line put in order, with the reader reset onto that `<XX-desc>` line. |
| ClefSpec.AuxFoldSnoc | src/main/java/io/anserini/search/topicreader/ClefTopicReader.java:111-125 | Reading one more line applies one more step of the loop body. |
| ClefSpec.AuxFoldWellFormed | src/main/java/io/anserini/search/topicreader/ClefTopicReader.java:111-125 | Every extra field the loop stores has a `[\w-]+` name and a value with no blank at either end. |
| ClefProperties.AuxFoldKeys | src/main/java/io/anserini/search/topicreader/ClefTopicReader.java:118-123 | A name is in the extra fields iff some line between the title and the description captures it. |
| ClefProperties.AuxFoldLastWins | src/main/java/io/anserini/search/topicreader/ClefTopicReader.java:123 | A name holds the value of the last line that captures it. |
| ClefProperties.AuxFoldLastWinsEarlier | src/main/java/io/anserini/search/topicreader/ClefTopicReader.java:118-124 | The same when that line is not the last one: the later lines, which capture other names, keep its value. |
| ClefProperties.DescriptionLineReadAgain | src/main/java/io/anserini/search/topicreader/ClefTopicReader.java:114-116 | The description line is the line that stopped the extra-field loop. It is read again after `reset`, and the extra fields are those of the lines before it. |
| ClefSpec.Cleaned | src/main/java/io/anserini/search/topicreader/ClefTopicReader.java:139-141 | A fixed field after its closing tags are removed and it is trimmed has no blank at either end. |
| ClefSpec.WithFixed | src/main/java/io/anserini/search/topicreader/ClefTopicReader.java:142-144 | The keys are the extra fields' keys plus title, description and narrative. Those three hold the fixed values even if an extra line used the same name. Every other extra field keeps its value. |
| ClefTopicReader.CleanUp | src/main/java/io/anserini/search/topicreader/ClefTopicReader.java:101-146 | The clean-up and the `fields.put` calls compute `BuildTopic` on the record's lines. |
| ClefSpec.BuildTopic | src/main/java/io/anserini/search/topicreader/ClefTopicReader.java:137-146 | On success the id is in 0..Integer.MAX_VALUE. Title, description and narrative are present and trimmed. |
| ClefSpec.IdText | src/main/java/io/anserini/search/topicreader/ClefTopicReader.java:101-103 | The id text after the first `>`, with `</num>` removed, has no blank at either end. |
| ClefSpec.FieldText | src/main/java/io/anserini/search/topicreader/ClefTopicReader.java:107-108 | A field's text after the first `>` has no blank at either end. |
| ClefSpec.ParseId | src/main/java/io/anserini/search/topicreader/ClefTopicReader.java:146 | `Integer.valueOf` on the digits succeeds iff there is at least one digit and the value fits in an `int`. The result is then in 0..Integer.MAX_VALUE. Otherwise it fails with `InvalidId` of those digits. |
| ClefProperties.BuildTopicFields | src/main/java/io/anserini/search/topicreader/ClefTopicReader.java:101-146 | Fails iff the id line has no digits or its number exceeds Integer.MAX_VALUE. Otherwise: the id is the decimal value of the digits; the keys are the extra ones plus the three fixed ones; each fixed value is its line's text after the first `>` with the closing tags removed and trimmed; every other extra field is kept. |
| ClefTopicReader.ReadRecordLines | src/main/java/io/anserini/search/topicreader/ClefTopicReader.java:100-135 | The lines of one record, found the way the loop finds them, with the reader after the `<XX-narr>` line. `Truncated` when the stream ends first. |
| ClefTopicReader.ReadBodyLines | src/main/java/io/anserini/search/topicreader/ClefTopicReader.java:110-135 | From the title on: the extra fields, the description line (read again after `reset`) and the narrative line. `Truncated` when the stream ends first. |
| ClefSpec.Locate | src/main/java/io/anserini/search/topicreader/ClefTopicReader.java:100-135 | A record that is found ends strictly after where its search started. |
| ClefSpec.LocateBody | src/main/java/io/anserini/search/topicreader/ClefTopicReader.java:110-135 | A record body that is found ends after its title line. It keeps the id line and the title line it was given. |
| ClefProperties.LocateFinds | src/main/java/io/anserini/search/topicreader/ClefTopicReader.java:100-108 | The id line is the first `<num>` line after the `<top` line. The title line is the first `<XX-title>` line after the id line. The rest of the record is found from those two lines. |
| ClefProperties.LocateBodyFinds | src/main/java/io/anserini/search/topicreader/ClefTopicReader.java:127-135 | The description line is the first `<XX-desc>` line after the title line. The narrative line is the first `<XX-narr>` line after the description line, and the record ends just after it. |
| ClefTopicReader.ReadTopic | src/main/java/io/anserini/search/topicreader/ClefTopicReader.java:98-146 | One pass of the record loop body computes `ParseRecord`'s topic or error, and leaves the reader where `ParseRecord` says. |
| ClefSpec.ParseRecord | src/main/java/io/anserini/search/topicreader/ClefTopicReader.java:98-146 | A parsed record ends strictly after its start. Its id is in 0..Integer.MAX_VALUE, and it has a title, a description and a narrative. |
| ClefTopicReader.ReadTopics | src/main/java/io/anserini/search/topicreader/ClefTopicReader.java:97-147 | The record loop computes `ParseFrom` from the cursor. |
| ClefTopicReader.Read | src/main/java/io/anserini/search/topicreader/ClefTopicReader.java:88-153 | `read(BufferedReader)` on a stream computes `Parse` of its text. |
| ClefSpec.Parse | src/main/java/io/anserini/search/topicreader/ClefTopicReader.java:88-153 | On success every key is in 0..Integer.MAX_VALUE, and every topic has a title, a description and a narrative. |
| ClefSpec.ParseFrom | src/main/java/io/anserini/search/topicreader/ClefTopicReader.java:97-147 | On success the map keeps every key it started with. Each key either holds the fields it started with, or is an `int` id whose fields include title, description and narrative. |
| ClefProperties.ParseFromIsStore | src/main/java/io/anserini/search/topicreader/ClefTopicReader.java:97-147 | The record loop fails with the first record's error, or returns the map with every record of the stream put in file order. |
| ClefProperties.RecordsWellFormed | src/main/java/io/anserini/search/topicreader/ClefTopicReader.java:97-146 | Every record the loop reads has an id in 0..Integer.MAX_VALUE and carries a title, a description and a narrative. |
| ClefProperties.StoreKeys | src/main/java/io/anserini/search/topicreader/ClefTopicReader.java:146 | The keys of the map are exactly the ids put into it. |
| ClefProperties.StoreUntouched | src/main/java/io/anserini/search/topicreader/ClefTopicReader.java:146 | An id that no record carries keeps whatever it held, or stays absent. |
| ClefProperties.StoreLastWins | src/main/java/io/anserini/search/topicreader/ClefTopicReader.java:146 | An id maps to the fields of the last record that carries it. |
| ClefProperties.ReadResult | src/main/java/io/anserini/search/topicreader/ClefTopicReader.java:97-147 | When every record of the line stream is read, the record loop from the first line with an empty map returns a map whose keys are the records' ids, and each id maps to its last record's fields. |
| ClefProperties.NoMoreTopics | src/main/java/io/anserini/search/topicreader/ClefTopicReader.java:97 | With no `<top` line left, the loop ends and returns the map built so far. |
| ClefProperties.TruncatedRecordFails | src/main/java/io/anserini/search/topicreader/ClefTopicReader.java:133-135 | A record that the stream ends inside, with no `<XX-narr>` line after its `<top` line, makes the whole read fail. |
| ClefProperties.FirstLineWithIsFirstMatch | src/main/java/io/anserini/search/topicreader/ClefTopicReader.java:48-59 | A line that starts with the prefix, with no earlier line from `from` on doing so, is the one the scan finds. |
| ClefProperties.ChainLocates | src/main/java/io/anserini/search/topicreader/ClefTopicReader.java:100-135 | When the `<num>`, `<XX-title>`, `<XX-desc>` and `<XX-narr>` lines follow one another, each the first of its kind after the one before, the record's lines are found. |
| ClefProperties.LocatedChain | src/main/java/io/anserini/search/topicreader/ClefTopicReader.java:100-135 | When the record's lines are found, that chain of four tagged lines is there. |
| ClefProperties.LocateOkIff | src/main/java/io/anserini/search/topicreader/ClefTopicReader.java:100-135 | The record's lines are found iff the chain of its four tagged lines follows the `<top` line. Without it, a scan or the extra-field loop reaches the end of the stream. |
| ClefProperties.LocateErrIsTruncated | src/main/java/io/anserini/search/topicreader/ClefTopicReader.java:100-135 | When the record's lines are not found, the error is always `Truncated`: the stream ended (a null line). |
| ClefProperties.UnlocatedRecordFails | src/main/java/io/anserini/search/topicreader/ClefTopicReader.java:97-135 | A record after the next `<top` line whose lines are not found ends the whole read with that error. |
| ClefProperties.IncompleteRecordFails | src/main/java/io/anserini/search/topicreader/ClefTopicReader.java:97-135 | A record after whose `<top` line the chain of four tagged lines is missing, whichever line is missing, makes the whole read fail with `Truncated`. |
| ClefProperties.ParseIdRoundTrip | src/main/java/io/anserini/search/topicreader/ClefTopicReader.java:146 | `Integer.valueOf` of the decimal digits of any n ≤ Integer.MAX_VALUE is n. |
| ClefProperties.ParseIdLeadingZero | src/main/java/io/anserini/search/topicreader/ClefTopicReader.java:146 | A leading zero changes neither whether the id parses nor its value. |
| Text.DecimalRoundTrip | src/main/java/io/anserini/search/topicreader/ClefTopicReader.java:146 | The decimal value of the decimal digits of n is n. |
| Text.LeadingZeroIgnored | src/main/java/io/anserini/search/topicreader/ClefTopicReader.java:146 | A leading `0` does not change a decimal value. |
| Text.DigitsOnly | src/main/java/io/anserini/search/topicreader/ClefTopicReader.java:138 | `replaceAll("[^0-9]", "")`: only digits are left and the result is never longer. A string of digits is unchanged, and a single non-digit disappears. |
| Text.DigitsOnlyDropsSeparator | src/main/java/io/anserini/search/topicreader/ClefTopicReader.java:138 | A non-digit between two pieces is dropped, and the digits of the pieces are joined. Applied once per separator, this makes `10.2452/41-AH` give `10245241`. |
| Text.DigitsOnlyAppend | src/main/java/io/anserini/search/topicreader/ClefTopicReader.java:138 | Stripping non-digits works piecewise over concatenation. |
| Text.IndexOf | src/main/java/io/anserini/search/topicreader/ClefTopicReader.java:101 | `indexOf`: the leftmost occurrence, and `None` (Java's -1) iff the pattern does not occur. |
| Text.AfterFirstGt | src/main/java/io/anserini/search/topicreader/ClefTopicReader.java:101-102 | `substring(indexOf(">") + 1)`: the text after the first `>`, or the whole text when there is no `>`. |
| Text.AfterTag | src/main/java/io/anserini/search/topicreader/ClefTopicReader.java:106-108 | After a tag with no `>` inside, the text is what follows the tag. |
| Text.RemoveAll | src/main/java/io/anserini/search/topicreader/ClefTopicReader.java:139-141 | `replaceAll` of a literal tag: the result is never longer, and it is untouched iff the tag does not occur. |
| Text.RemoveAllLeftmost | src/main/java/io/anserini/search/topicreader/ClefTopicReader.java:139-141 | The text before the leftmost occurrence is kept. That occurrence is dropped, and the removal goes on after it. |
| Text.RemoveAllTrailing | src/main/java/io/anserini/search/topicreader/ClefTopicReader.java:139-141 | Removing a closing tag from a value followed by that tag gives back the value, when the tag's first character does not occur in the value. |
| Text.RemoveFirst | src/main/java/io/anserini/search/topicreader/ClefTopicReader.java:121-122 | `replaceFirst` of a literal tag: the text is unchanged when the tag is absent, and one tag shorter otherwise. |
| Text.RemoveFirstCutsLeftmost | src/main/java/io/anserini/search/topicreader/ClefTopicReader.java:121-122 | It is exactly the leftmost occurrence that is cut out. |
| Text.RemoveFirstTrailing | src/main/java/io/anserini/search/topicreader/ClefTopicReader.java:122 | Removing the first closing tag from a value followed by that tag gives back the value, when the tag's first character does not occur in the value. |
| Text.Trim | src/main/java/io/anserini/search/topicreader/ClefTopicReader.java:103 | `trim`: no character at or below U+0020 is left at either end, and a trimmed string is unchanged. |
| Text.TrimIsSlice | src/main/java/io/anserini/search/topicreader/ClefTopicReader.java:108 | The result is a slice of the input with only blanks outside it. |
| Text.TrimPadded | src/main/java/io/anserini/search/topicreader/ClefTopicReader.java:103 | `trim` of a value with no blank at either end, padded with blanks on both sides, is the value. |
| Text.TrimLeft | src/main/java/io/anserini/search/topicreader/ClefTopicReader.java:108 | `trim` of such a value with blanks before it is the value. |
| Text.TrimRight | src/main/java/io/anserini/search/topicreader/ClefTopicReader.java:141 | `trim` of such a value with blanks after it is the value. |
| Text.TrimBeforeTag | src/main/java/io/anserini/search/topicreader/ClefTopicReader.java:108 | Trimming a padded value followed by its closing tag leaves the value, the blanks after it and the tag. |
| Text.CleanPadded | src/main/java/io/anserini/search/topicreader/ClefTopicReader.java:107-108 | For a value with blanks before and after it, followed by its closing tag: a trim, removing the tag and a second trim give back the value, when the tag's first character does not occur in the value. |
| LineStream.LinesOf | src/main/java/io/anserini/search/topicreader/ClefTopicReader.java:49 | The successive `readLine` results hold no line terminator. |
| LineStream.LinesOfUnterminatedLast | src/main/java/io/anserini/search/topicreader/ClefTopicReader.java:49 | The same when the last line has no terminator: it is read as one more line, unless it is empty. |
| LineStream.LinesOfLine | src/main/java/io/anserini/search/topicreader/ClefTopicReader.java:49 | One line, its terminator, then the rest: `readLine` returns that line, then the lines of the rest. A lone `\r` not followed by `\n` ends the line on its own. |
| LineStream.Prefix | src/main/java/io/anserini/search/topicreader/ClefTopicReader.java:71-75 | The first `n` characters of a text, or the whole text when it is shorter. |
| LineStream.LinesOfTerminated | src/main/java/io/anserini/search/topicreader/ClefTopicReader.java:49 | A file written line by line, every line ending in `\n`, in `\r` or in `\r\n`, reads back as those lines. So a `\r\n` pair ends one line, and a final terminator does not start an empty line. |
| LineStream.LineReader.ReadLine | src/main/java/io/anserini/search/topicreader/ClefTopicReader.java:49 | The next line, with the cursor one further on. Null at the end, where the cursor stays. |
| LineStream.LineReader.Mark | src/main/java/io/anserini/search/topicreader/ClefTopicReader.java:112 | Remembers the cursor. |
| LineStream.LineReader.Reset | src/main/java/io/anserini/search/topicreader/ClefTopicReader.java:115 | Returns to the remembered cursor. |
| SortedKeys.AscendingKeys | src/main/java/io/anserini/search/topicreader/ClefTopicReader.java:90 | A `TreeMap`'s key order: strictly ascending, each key exactly once. |
| ClefRoundTrip.FieldLineValue | src/main/java/io/anserini/search/topicreader/ClefTopicReader.java:106-108 | The text after `>` of a written field line, with its closing tag stripped, is the value written. |
| ClefRoundTrip.FieldLineTag | src/main/java/io/anserini/search/topicreader/ClefTopicReader.java:118-120 | The field pattern captures `name` on a written `<XX-name>` line. |
| ClefRoundTrip.FieldLineAuxValue | src/main/java/io/anserini/search/topicreader/ClefTopicReader.java:121-122 | Removing the opening and then the closing tag of a written extra line, trimming after each step, gives back its value. |
| ClefRoundTrip.AuxLineCaptured | src/main/java/io/anserini/search/topicreader/ClefTopicReader.java:118-123 | One written extra line puts its value under its name, and leaves every other name alone. |
| ClefRoundTrip.NumLineDigits | src/main/java/io/anserini/search/topicreader/ClefTopicReader.java:100-103 | The digits picked out of a written `<num>` line are the id's decimal digits. |
| ClefRoundTrip.PaddedNumLine | src/main/java/io/anserini/search/topicreader/ClefTopicReader.java:101-103 | On a `<num>` line with blanks around its numeral, the text after `>` with `</num>` removed and trimmed is the numeral. |
| ClefRoundTrip.PaddedFieldLineValue | src/main/java/io/anserini/search/topicreader/ClefTopicReader.java:106-108 | A field line with blanks between the tags and the value gives back the value once its text after `>` is trimmed, its closing tag removed and the rest trimmed again. |
| ClefRoundTrip.LocateBlock | src/main/java/io/anserini/search/topicreader/ClefTopicReader.java:100-135 | The record lines found in a written block are that block's lines, and the reader ends after its `<XX-narr>` line. |
| ClefRoundTrip.BuildBlock | src/main/java/io/anserini/search/topicreader/ClefTopicReader.java:137-146 | The clean-up of a written block gives back its topic. |
| ClefRoundTrip.BlockParses | src/main/java/io/anserini/search/topicreader/ClefTopicReader.java:98-146 | One pass of the loop body over a written block yields its topic. |
| ClefRoundTrip.BlockStep | src/main/java/io/anserini/search/topicreader/ClefTopicReader.java:97-146 | The record loop over a written block puts its topic and carries on after the block. |
| ClefRoundTrip.WrittenParsesFrom | src/main/java/io/anserini/search/topicreader/ClefTopicReader.java:97-147 | The loop over the written blocks from block `i` on puts exactly those blocks' topics, in order. |
| ClefRoundTrip.WrittenLinesRead | src/main/java/io/anserini/search/topicreader/ClefTopicReader.java:97-147 | The record loop over the lines of a written topic file, from the first line on, puts its topics in order. |
| ClefRoundTrip.WrittenLines | src/main/java/io/anserini/search/topicreader/ClefTopicReader.java:49 | No written line holds a line terminator. |
| ClefRoundTrip.FileHeadShape | src/main/java/io/anserini/search/topicreader/ClefTopicReader.java:77-79 | The `<top>` and `<num>` lines at the head of a written file take at most 30 characters. No `<` in them is followed by a capital letter, so no language tag starts there. |
| ClefRoundTrip.FileLanguage | src/main/java/io/anserini/search/topicreader/ClefTopicReader.java:68-86 | `extract` on the text of a written file with at least one topic finds the language the file was written in. |
| ClefRoundTrip.FileReads | src/main/java/io/anserini/search/topicreader/ClefTopicReader.java:88-153 | `read` on the text of a written topic file, with any of the three line endings, returns its topics put in order. An empty file fails with the missing-language error. |
| ClefRoundTrip.StoredEntries | src/main/java/io/anserini/search/topicreader/ClefTopicReader.java:146 | With distinct ids, the map built from the entries has exactly their ids, and each id maps to its entry's fields. |
| ClefRoundTrip.WrittenFileContents | src/main/java/io/anserini/search/topicreader/ClefTopicReader.java:88-153 | On the text of a written file with distinct ids and any line ending: the read succeeds iff there is at least one entry. The map then has exactly the entries' ids, and each id maps to its entry's title, description and narrative. |
| ClefExamples.AscendingOneTwo | src/test/java/io/anserini/search/topicreader/ClefTopicReaderTest.java:38-41 | Over the keys 1 and 2, `firstKey` is 1 and `lastKey` is 2. |
| ClefExamples.SampleFile | src/test/java/io/anserini/search/topicreader/ClefTopicReaderTest.java:37-42 | The text of a file with topic 1 titled "simple test" and topic 2 titled "another simple test", written in the six-line block layout (one tag per line, no blanks inside the tags, no other lines), with any line ending and any one-line descriptions and narratives, reads back as a map with the keys 1 and 2 only. Its first key is 1 with the first title, and its last key is 2 with the second title. |
| ClefExamples.ExtraTitleLine | src/main/java/io/anserini/search/topicreader/ClefTopicReader.java:118-123 | The extra line `<EN-title-1>title 1</EN-title-1>` stores `title 1` under `title-1`. |
| ClefExamples.PaddedIdLine | src/main/java/io/anserini/search/topicreader/ClefTopicReader.java:100-103 | The id line `<num> 007 </num>` gives the id 7. |
| ClefExamples.PaddedTitleLine | src/main/java/io/anserini/search/topicreader/ClefTopicReader.java:106-108 | The title line `<EN-title> simple test </EN-title>` gives the title `simple test`. |

## Left out

- The `TopicReader` base class and the constructor are not part of this model (lines 39-41). That includes opening the topic file from a `Path`. The model starts from the text of the stream.
- `System.getProperty("line.separator")` (line 37) is I/O, so the separator is the `newline` parameter.
- Closing the reader in the `finally` block (lines 148-150) is not modelled: the model has no resources.
- Propagating an `IOException` from the underlying stream is not modelled, because the text is given in full.
- `extract`'s `read(buffer, 0, 1000)` is taken to fill the buffer as far as the text allows. A short read by the underlying stream is not modelled.
- The `NUL` padding that `new String(buffer)` adds to a short buffer is not modelled. It cannot be part of a match.
- `mark(1000)` before each line of the extra-field loop is modelled as a `reset` that always succeeds. Java's `reset` throws once more than 1000 characters were read past the mark, and a line that long is not modelled.
- The language code is passed to the per-topic methods as a value. In the source it is a local that `read` closes over.
- The `StringBuilder` the helper returns is modelled as its text. The only argument the reader passes is `null`, so the model starts the builder at "".
- `ClefTopicReader.Extract`: requires the cursor at the start of the stream. That is the only place `read(BufferedReader)` calls it, but Java's `extract` would peek from any position.
- `ClefSpec.ParseId`: requires a string of decimal digits. That is all the reader passes it, because it strips the non-digits first. Java's `Integer.valueOf` would also take a sign.
- `ClefSpec.Window` and `LineStream.LineReader.Peek` count 1000 Dafny characters. Java's `char` buffer counts 1000 UTF-16 code units, so the two windows differ when the text before the cut holds characters outside the Basic Multilingual Plane.
- Java's `SortedMap` is modelled as a Dafny `map` whose iteration order `SortedKeys.AscendingKeys` gives. Comparators and views of the map are not modelled.
