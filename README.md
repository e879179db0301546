# mbox-scan in Dafny

A model of `scan.py`, the mailbox scanner. The scanner walks the messages of an mbox file
in order. For each message it:

- normalises and parses the `Date` header;
- collects the text of every MIME part;
- exports the message when it is dated after 1 March 2024 and a configured search term occurs
  as a whole word (ignoring case) in the text, the subject, the sender or the recipients.

Exporting a message writes three things, all under a file name built from the message's
wall-clock date and time:

- a raw copy in `raw/`;
- a formatted text file in `text/`;
- its Word and PDF attachments, also in `text/`.

The first message whose date is missing or does not parse, and the first lookup of a search-term
list absent from the configuration, end the run. Whatever was written before remains.

Modules, in dependency order:

- `Wrappers`: `Option` and `Result`.
- `Strings`: substring search, `find`, `isspace`, ASCII digits and lower-casing.
- `Decimal`: reading digit strings and zero-padded formatting.
- `Timestamps`: `datetime` validity, POSIX timestamps in microseconds, the chronological order,
  and the file name root `YYYY-MM-DD-HH-MM-SS`.
- `DateText`: the normalisation of the `Date` header between its first comma and its first `(`.
- `Strptime`: `datetime.strptime(s, "%d %b %Y %H:%M:%S %z")` as Python 3.12 evaluates it.
- `WordSearch`: the `search` helper with its `\b term \b` pattern.
- `Filenames`: `clean_filename`.
- `Mime`: MIME trees, their flattening, text extraction and attachment selection.
- `Scanner`: one message, a whole mailbox, and the class `Scan`.

`Scan` holds the two output directories as maps from file name to contents: `raw/`, and `text/`
split into formatted files and attachments (proved disjoint by `NamesDisjoint`). `Scan.Run` loops
over the messages, and its result and final state are tied to the function `Process`.

The time zone of the cutoff and the two decoding libraries are parameters:

- the cutoff, in seconds since the epoch; `UtcCutoff` is its value when the local zone is UTC;
- a UTF-8 decoder;
- the HTML-to-text function `get_html_text`.

Where the code and the documented behaviour differ, the model follows the code:

- **A missing search-term list.** It is not treated as "no match". Reading it raises `KeyError`,
  but only when the short-circuit `or` of `scan.py:174-179` reaches it, and only for a message
  dated after the cutoff.
- **The comma fallback.** `find(",") + 1` is never `-1`, so the fallback to 0 at `scan.py:151-152`
  never runs. A header without a comma is sliced from 0 all the same.
- **A bare string inside a multipart payload.** It would fail at `msg.is_multipart()`. The types
  make it unrepresentable: raw strings occur only as the whole payload of a non-multipart message.

## Model

| member | source | states |
|---|---|---|
| Filenames.Sanitise | scan.py:43 | every forbidden character (`/ \ ? % * : \| " < >`, DEL, controls) becomes `-`, every other is kept, length preserved |
| Filenames.CleanFilename | scan.py:40-43 | a missing name becomes `unnamed`, a present one is sanitised |
| Filenames.CleanFilenameSafe | scan.py:40-43 | no forbidden character (hence no path separator) survives cleaning |
| Filenames.SanitiseClean | scan.py:43 | a name without forbidden characters is left unchanged |
| Filenames.CleanFilenameIdempotent | scan.py:40-43 | cleaning a cleaned name changes nothing |
| Filenames.SanitiseAppend | scan.py:43 | the substitution works character by character: it distributes over concatenation |
| Filenames.CleanSuffixSafe | scan.py:96 | in `prefix-name`, nothing after the prefix is a forbidden character |
| Filenames.CleanFilenameExample | scan.py:40-43 | `q1/q2:v3.pdf` cleans to `q1-q2-v3.pdf` |
| Mime.FlattenAppend | scan.py:102-111 | flattening a concatenation of payload lists concatenates their leaves |
| Mime.FlattenAt | scan.py:102-111 | the leaves of a child sit between those of the children before and after it, in order |
| Mime.FlattenAllMembers | scan.py:102-111 | a leaf is produced exactly when it occurs in some child, through nested multiparts and lists |
| Mime.FlattenPartMembers | scan.py:104-111 | a leaf is produced by one element exactly when it occurs in it |
| Mime.MessageItems | scan.py:74-78 | a non-multipart message gives its payload string as the only item, a multipart one its flattened leaves in order |
| Mime.ReadText | scan.py:113-127 | `NA` marks exactly the raw string; plain text is decoded, HTML decoded and reduced to text, every other type gives no text; the encoding header defaults to `NA` |
| Mime.ReadEmailPayload | scan.py:73-79 | one extracted triple per item, in traversal order |
| Mime.ReadAttachment | scan.py:89-100 | an item yields a file exactly when it is a Word or PDF leaf, named `prefix-` plus the cleaned name, holding its decoded payload, with no forbidden character after the prefix |
| Mime.ReadEmailAttachments | scan.py:81-87 | one result per item, in traversal order |
| Mime.RawBodyHasNoAttachments | scan.py:81-87 | a non-multipart message never yields an attachment |
| Mime.OtherLeafIgnored | scan.py:94 | an `image/png` leaf yields neither text nor an attachment |
| DateText.PySlice | scan.py:158 | Python slicing never yields more than the string |
| DateText.Strip | scan.py:158 | `strip()` is the slice between the leading and the trailing whitespace, and neither end of the result is whitespace |
| DateText.ReplaceGmt | scan.py:159 | the replacement is empty exactly for the empty string, and starts with `+` where the text starts with `GMT`, with the text's own first character otherwise |
| DateText.ReplaceGmtRemovesAll | scan.py:159 | no `GMT` is left after the replacement, not even one formed across a replaced text |
| DateText.DateStart | scan.py:150-152 | the slice starts just after the first comma, at 0 without one |
| DateText.DateEnd | scan.py:154-156 | the slice ends at the first `(`, or at the end when there is none |
| DateText.DateSliceBounds | scan.py:150-158 | the slice is the text between comma and `(`, is empty when the `(` comes first, and holds no `(` |
| DateText.NormaliseDateShape | scan.py:150-159 | the normalised date has no surrounding whitespace, no `(` and no `GMT` |
| Strptime.Number | scan.py:161 | a numeric directive consumes a run of `lo` to `hi` digits and yields its value |
| Strptime.Parse | scan.py:161 | a parsed date-time is accepted by `datetime` and `timezone` |
| Strptime.ZoneOfFormat | scan.py:161 | `%z` reads back every whole-minute offset below a day that `+HHMM`/`-HHMM` shows |
| Strptime.ParseFormat | scan.py:161 | parsing is a left inverse of formatting `DD Mon YYYY HH:MM:SS +HHMM` for every valid date-time with a whole-minute offset |
| Timestamps.UtcCutoffIsMarchFirst | scan.py:130 | `UtcCutoff` is the timestamp of 2024-03-01 00:00:00 UTC |
| Timestamps.EpochOrder | scan.py:174 | for date-times of one zone, the timestamp order is the wall-clock order |
| Timestamps.AfterUtcCutoff | scan.py:130-174 | a UTC date-time passes the date test for the UTC cutoff exactly when it is later than 2024-03-01 00:00:00 |
| Timestamps.ParseRoot | scan.py:181-182 | only a 19-character string reads back as a root, into six fields |
| Timestamps.FilenameRootRoundTrip | scan.py:181-182 | the root of a valid date-time is 19 characters long and reads back as its year, month, day, hour, minute and second |
| Timestamps.FilenameRootInjective | scan.py:181-183 | two date-times share a file name exactly when their wall-clock fields agree, whatever their zones |
| WordSearch.FindWord | scan.py:138-139 | the leftmost position at or after `from` where `\b term \b` matches ignoring case, or none when there is none |
| WordSearch.FindWordFinds | scan.py:139 | the scan from 0 finds a match exactly when the term occurs as a whole word |
| WordSearch.Search | scan.py:132-141 | `search` is false for a missing header, and otherwise true exactly when some term occurs as a whole word in the lowered text |
| WordSearch.WordAtLowered | scan.py:136-138 | lower-casing the text first does not change where a term matches |
| WordSearch.ContainsWordLowered | scan.py:136-139 | lower-casing the text does not change whether a term matches |
| WordSearch.ContainsWordLowerTerm | scan.py:138 | the case of a search term does not matter |
| WordSearch.MatchesAnyAppend | scan.py:137-141 | a list of terms matches exactly when one of its parts does |
| WordSearch.WordInSentence | scan.py:138-139 | `bar` is found in `Is the BAR open?` |
| WordSearch.PrefixIsNotAWord | scan.py:138-139 | `bar` is not found in `barista` |
| Scanner.DateOf | scan.py:146-161 | a missing header or a normalised text that does not parse is the matching error; a parsed date is valid and comes with its normalised text |
| Scanner.Aggregate | scan.py:168-172 | the loop builds the concatenation of every truthy text, each followed by a line break, in order |
| Scanner.ContentsAppend | scan.py:169-172 | the contents of two lists of parts are the concatenation of their contents |
| Scanner.ContentsEmpty | scan.py:169-172 | the contents are empty exactly when no part has a non-empty text, and otherwise end with a line break |
| Scanner.ContentsHasText | scan.py:169-172 | every non-empty text appears in the contents followed by a line break |
| Scanner.Lookup | scan.py:175-179 | a configured list is returned, a missing one is a `KeyError` naming its key |
| Scanner.Select | scan.py:174-179 | the five searches are made in order, each key looked up only when the earlier searches have failed |
| Scanner.MatchesComplete | scan.py:174-179 | with every key configured, a message matches exactly when one of the five searches does |
| Scanner.MatchesMissingKey | scan.py:174-179 | each of the four keys, when missing, is the `KeyError` raised once every search before it has failed; a general match gives `true` whatever else is missing; an error implies an incomplete configuration |
| Scanner.Show | scan.py:192-196 | a header is shown as its text, an absent one as `None` |
| Scanner.ReadField | scan.py:192-196 | reading one labelled line always consumes input |
| Scanner.ReadFieldOfLine | scan.py:192-196 | a labelled line without a line break reads back as its value and the rest |
| Scanner.TextFileRoundTrip | scan.py:189-199 | when no header value holds a line break, the text file reads back as the five header values and the contents |
| Scanner.SelectedDated | scan.py:174-179 | a message with a parsed date is selected exactly when it is after the cutoff and the searches match; before the cutoff no search runs |
| Scanner.StepError | scan.py:146-179 | an error in the date or the searches ends the step with that error |
| Scanner.StepSkip | scan.py:174-199 | a message that is not selected leaves every output map unchanged |
| Scanner.StepExport | scan.py:180-203 | a selected message has a parsed date and is exported under it |
| Scanner.Scan.constructor | scan.py:54-71 | the output directories start out empty |
| Scanner.Scan.WriteAttachments | scan.py:201-203 | each document attachment is written under its name, a later one replacing an earlier one of the same name; the raw and text directories are untouched |
| Scanner.Scan.ScanMessage | scan.py:145-203 | one pass of the loop: on success the new state is the step function of the old one, on an error nothing is written |
| Scanner.Scan.WriteOutputs | scan.py:180-203 | the raw copy and the text file go under `root.txt`, the attachments under `root-name` |
| Scanner.Scan.Run | scan.py:129-203 | the final state and error are those of processing the messages in order, stopping at the first error |
| Scanner.ProcessAppend | scan.py:145 | running two mailboxes after each other is running their concatenation, unless the first ends in an error |
| Scanner.EarlyMessageIgnored | scan.py:174 | a message dated at or before the cutoff changes nothing, whatever the configuration holds |
| Scanner.EarlyMailboxIgnored | scan.py:145-174 | a mailbox of messages dated at or before the cutoff exports nothing and raises nothing |
| Scanner.ExportWrites | scan.py:180-199 | a selected message is found under its file name in both directories, and every other raw file is kept |
| Scanner.ExportRaw | scan.py:183-187 | the raw copy under `root.txt` is the serialised message |
| Scanner.ProcessTwo | scan.py:145 | two messages that both succeed are processed one after the other |
| Scanner.LaterMessageOverwrites | scan.py:181-187 | of two selected messages with the same wall-clock date and time, the later one's raw copy and text file remain |
| Scanner.NamesDisjoint | scan.py:183-203 | text file names and attachment names never collide |
| Scanner.SaveAllNames | scan.py:201-203 | saving attachments named `root-...` keeps every attachment name well formed |
| Scanner.AttachmentNamed | scan.py:96 | every attachment of a message is named after its root and a dash |
| Scanner.ExportWellNamed | scan.py:180-203 | an export keeps the raw and text directories in step and the attachment names apart |
| Scanner.StepWellNamed | scan.py:145-203 | one pass of the loop keeps the file names consistent |
| Scanner.ProcessWellNamed | scan.py:129-203 | every run keeps raw and text copies side by side and attachment names apart from text names |

## Left out

- Reading the mbox file and parsing each message (the `mailbox` and `email` packages) are not
  part of this model. A message is given as its headers, its MIME tree and its serialised form
  `wire` (`msg.__str__()`).
- Files are not written. The two output directories are maps from file name to contents, `text/`
  split into formatted files and attachments.
  `makedir`, `rmtree` and the derivation of the output directory from the configuration file's
  name at `scan.py:56-71` are left out; the model's names are relative to the directories.
- Reading the JSON configuration is left out. The configuration is given as its four lists.
  A list given as a JSON string, which `for s in` would walk character by character, is not modelled.
- `bs4` (`get_html_text`) and the UTF-8 decoding with errors ignored are parameters, not modelled.
- `clean_string`, `makedir`, `main` and the argument parser are not part of this model.
- The cutoff `datetime(2024, 3, 1).timestamp()` depends on the local time zone. It is a parameter;
  `UtcCutoff` gives its value for UTC.
- Timestamps are exact integers of microseconds rather than floats. For dates near 2024 the float
  comparison agrees with the exact one.
- `\d`, `\w`, `\s`, `lower()` and `re.IGNORECASE` are modelled on ASCII (and the Python whitespace
  set for `\s` and `strip()`). Their Unicode extensions are left out.
- WordSearch.Search: a search term is matched literally. Regular-expression metacharacters in a
  term, and a term that is not a valid pattern, are left out.
- Header values are plain strings. `email.header.Header` objects and RFC 2231 tuple-valued `name`
  parameters are left out.
- `get_content_type()` and `get(...)` are taken as given fields of a leaf. Defaulting a
  malformed content type to `text/plain` is left out.
- Encoding errors when writing the text file are not modelled.
- `%b` is modelled for the C locale's English month abbreviations only.
