# GFA parsing, printing, name conversion and graph editing, in Dafny

This project models the core of `rs-handlegfa`: a tool that reads GFA 1.0 and GFA 2.0
assembly-graph files into the records of the `rs-gfa2` crate, prints them back, renames
GFA 2.0 segment ids to dense integer indices and back, and edits a handle graph
(nodes, links and paths) on the command line's behalf.

The modules follow the source files:

| module | file | source |
|---|---|---|
| `Text` | text.dfy | shared string helpers: spans, `split`, `split_terminator`, joining, decimal text |
| `Tag` | tag.dfy | `rs-gfa2/src/tag.rs`: SAM-style optional fields |
| `SegmentId` | segment_id.dfy | `rs-gfa2/src/gfa2/traits.rs`: the id types and their parsers |
| `Gfa1` | gfa1.dfy | `rs-gfa2/src/gfa.rs`: GFA 1.0 records and their `Display` |
| `ParserGfa1` | parser_gfa1.dfy | `rs-gfa2/src/parser_gfa.rs`: the GFA 1.0 line parsers |
| `Gfa1RoundTrip` | gfa1_round_trip.dfy | printing, then parsing, GFA 1.0 |
| `Gfa2` | gfa2.dfy | `rs-gfa2/src/gfa2/gfa2.rs`: GFA 2.0 records and their `Display` |
| `ParserGfa2` | parser_gfa2.dfy | `rs-gfa2/src/parser_gfa2.rs`: the GFA 2.0 line parsers |
| `Gfa2RoundTrip` | gfa2_round_trip.dfy | printing, then parsing, GFA 2.0 |
| `PrintGfa2` | print_gfa2.dfy | `rs-gfa2/src/print_gfa_2.rs`: the stream writer |
| `NameMap` | name_map.dfy | the name interning shared by both `name_conversion.rs` files |
| `NameConversion` | name_conversion.dfy | `rs-gfa2/src/gfa2/name_conversion.rs` |
| `AppNameConversion` | app_name_conversion.dfy | `src/gfa2/name_conversion.rs` |
| `GraphError` | graph_error.dfy | `src/graphoperation/error.rs` |
| `GraphOperation` | graph_operation.dfy | `src/graphoperation.rs` |

Text is `seq<char>` with one character per byte.

Each regular expression of the parsers is a hand-written recogniser. It returns
`Done(rest, value)` or `Error`, as nom's `re_find!` does. The contract of a recogniser
states three things:
- the value is a prefix of the input;
- the value is in the pattern's language, written as a predicate of its own (`IsCigar`,
  `IsId`, `IsRefList`, `IsTrace`, ...). For the repeated optional fields and tags it is the
  list of items the repetition reads (`MatchedFields`, `MatchedTags`), each one in the
  language of a single item;
- the value is what the greedy, leftmost-first match reads: what follows it cannot continue
  it. This is stated as an `Ends...` predicate or as a condition on the next character.
  Where the pattern has a `*` alternative, a leading `*` is read alone and the condition
  is about the other alternative. The GFA 2.0 header tag states it for each of its two
  parts.

`ParserGfa2.ParseOptId` and `ParserGfa2.ParsePos` are `ParserGfa2.ParseWord` and inherit
its contract.

A partner lemma states completeness: a word of the language, followed by a delimiter,
is read whole.

Parsing and printing are tied together record by record and document by document.

Source panics become preconditions. These are:
- `unwrap` on an empty line;
- a first character the line parser does not know;
- a position that does not convert;
- `OptField::tag` on a tag that is not alphanumeric;
- `len() - 1` on an empty step;
- `sequence_of_id.len() - 1` on an empty token list in `add_path`;
- `parse::<u64>().unwrap()` on a step id;
- `unwrap` of a missing replacement orientation in `modify_link`.

Edits to the handle graph are methods on a `HashGraph` class. Its fields are the node
map, the edge set and the path map. Each operation states the error it returns and the
whole new state.

The source files do not agree on the record types, and the model follows each file:
- `gfa2.rs` has records of strings. The parser fills them and `Display` prints them.
- `print_gfa_2.rs` and both `name_conversion.rs` files use a generic `GFA2<N, T>`.
- The structs of `gfa.rs` and `gfa2.rs` have no comment list, but the parsers push
  comments (and custom records) into the document. The model's documents carry these
  lists, and `Display` ignores them.

## Model

| member | source | states |
|---|---|---|
| Tag.ValueOf | rs-gfa2/src/tag.rs:72-102 | the variant a type byte selects has that type byte and keeps the matched text |
| Tag.MakeTag | rs-gfa2/src/tag.rs:43-48 | a two-byte alphanumeric tag is kept as it is |
| Tag.NewOptField | rs-gfa2/src/tag.rs:53-56 | the new field has the given tag and value |
| Tag.MatchLength | rs-gfa2/src/tag.rs:62-65 | the match is empty unless the input starts with `XX:T:`; otherwise it runs through the printable characters and spaces that follow, and stops at the first other byte |
| Tag.ParseOptField | rs-gfa2/src/tag.rs:61-105 | `None` exactly when the input is shorter than 4 bytes or its fourth byte is not a type; otherwise the tag is the first two bytes, the type is the fourth byte, and the text is the regex match |
| Tag.ParseFieldText | rs-gfa2/src/tag.rs:61-105 | well-formed field text followed by a non-field byte parses to a well-formed field that displays as that text |
| Tag.DisplayParse | rs-gfa2/src/tag.rs:111-125 | display after parse is the identity on well-formed field text |
| Tag.ParseDisplay | rs-gfa2/src/tag.rs:111-125 | parse after display is the identity on well-formed fields |
| Tag.MalformedFieldIsEmpty | rs-gfa2/src/tag.rs:69-102 | a field with a known type byte but wrong `:` separators is still accepted, with an empty value |
| Tag.GetField | rs-gfa2/src/tag.rs:176-178 | `None` exactly when no field has the tag; otherwise the first field that has it |
| Tag.ParseFieldsSound | rs-gfa2/src/tag.rs:184-193 | every kept field is what `OptField::parse` made of some item |
| Tag.ParseFieldsComplete | rs-gfa2/src/tag.rs:184-193 | every item that parses contributes its field |
| Tag.ParseFieldsOne | rs-gfa2/src/tag.rs:189-192 | one item is kept exactly when it parses |
| Tag.ParseFieldsAppend | rs-gfa2/src/tag.rs:184-193 | `filter_map` keeps input order: the fields of `a + b` are those of `a`, then those of `b` |
| Tag.UnitStoresNothing | rs-gfa2/src/tag.rs:154-169 | whatever is parsed into `()`, no field is found or listed |
| SegmentId.KindError | rs-gfa2/src/gfa2/traits.rs:60-76 | `Self::ERROR` is `UintIdError` for `usize`, `Utf8Error` for `BString`, and never `MissingFields` |
| SegmentId.ParseUsize | rs-gfa2/src/gfa2/traits.rs:62-72 | succeeds exactly on an optional `+` followed by one or more digits whose value is below 2^64 |
| SegmentId.ParseUsizeRendered | rs-gfa2/src/gfa2/traits.rs:62-64 | a rendered number below 2^64 reads back as itself |
| SegmentId.ParseUsizeRejects | rs-gfa2/src/gfa2/traits.rs:62-64 | any non-digit, other than a leading `+`, makes the parse fail |
| SegmentId.FindId | rs-gfa2/src/gfa2/traits.rs:78-84 | `None` exactly when no byte is printable; otherwise the leftmost maximal run of printable bytes |
| SegmentId.FindIdOf | rs-gfa2/src/gfa2/traits.rs:78-84 | a printable word after non-printable padding is found whole |
| SegmentId.FindOptIdIsFindId | rs-gfa2/src/gfa2/traits.rs:86-92 | `[!-~]+\|\*` finds the same match as `[!-~]+` on every input, because `*` is printable |
| SegmentId.FindRef | rs-gfa2/src/gfa2/traits.rs:94-100 | `None` exactly when no substring matches `[!-~]+[+-]`; otherwise a match of at least two bytes that ends in a sign |
| SegmentId.FindRefFrom | rs-gfa2/src/gfa2/traits.rs:94-100 | the leftmost start with a match, and the longest match at that start |
| SegmentId.FindRefOfField | rs-gfa2/src/gfa2/traits.rs:94-100 | a reference alone in its field is found whole |
| SegmentId.UsizeParsersAgree | rs-gfa2/src/gfa2/traits.rs:59-73 | for `usize`, `parse_id`, `parse_opt_id` and `parse_ref` are one decimal parse |
| SegmentId.NextResult | rs-gfa2/src/gfa2/traits.rs:31-56 | `MissingFields` exactly when no field is left; `Self::ERROR` when the next field does not parse; otherwise the parsed next field |
| SegmentId.FieldIter.ParseNext | rs-gfa2/src/gfa2/traits.rs:31-38 | returns `NextResult` for the id parser and consumes exactly one field |
| SegmentId.FieldIter.ParseNextOpt | rs-gfa2/src/gfa2/traits.rs:40-47 | the same with the optional-id parser |
| SegmentId.FieldIter.ParseNextRef | rs-gfa2/src/gfa2/traits.rs:49-56 | the same with the reference parser |
| SegmentId.ReadFields | rs-gfa2/src/gfa2/traits.rs:31-38 | `k` calls consume exactly the first `k` fields; call `j` returns the result for field `j` |
| Gfa1.OrientationText | rs-gfa2/src/gfa.rs:136-144 | an orientation prints as one character |
| Gfa1.AsBool | rs-gfa2/src/gfa.rs:127-134 | `as_bool` is true exactly for the orientation printed `+` |
| Gfa1.HeaderText | rs-gfa2/src/gfa.rs:45-49 | a header line is `H`, a tab, then the version text |
| Gfa1.SegmentText | rs-gfa2/src/gfa.rs:108-119 | defines `Display for Segment`: `S`, the name, the sequence, then the optional fields, each column followed by a tab; `Gfa1RoundTrip.SegmentRoundTrip` states that it reads back |
| Gfa1.LinkText | rs-gfa2/src/gfa.rs:231-245 | defines `Display for Link`, each column followed by a tab; `Gfa1RoundTrip.LinkRoundTrip` states that it reads back |
| Gfa1.ContainmentText | rs-gfa2/src/gfa.rs:338-353 | defines `Display for Containment`, each column followed by a tab; `Gfa1RoundTrip.ContainmentRoundTrip` states that it reads back |
| Gfa1.PathText | rs-gfa2/src/gfa.rs:415-425 | defines `Display for Path`: names and overlaps each followed by a comma; `Gfa1RoundTrip.PathRoundTrip` states that it reads back |
| Gfa1.GfaText | rs-gfa2/src/gfa.rs:512-524 | defines `Display for GFA`: the record lines in section order; `Gfa1.GfaTextIsLines` and `Gfa1RoundTrip.GfaTextRoundTrip` state what it holds |
| Gfa1.NewGfa | rs-gfa2/src/gfa.rs:500-510 | the new document has no record lines and prints as the empty text |
| Gfa1.GfaTextIsLines | rs-gfa2/src/gfa.rs:512-524 | a document prints as its record lines, each followed by a newline |
| Gfa1.LinesOfGfaText | rs-gfa2/src/gfa.rs:512-524 | when no record holds a newline, splitting the printed text at newlines gives the record lines back |
| ParserGfa1.ParseName | rs-gfa2/src/parser_gfa.rs:22-25 | fails exactly when the input does not start with a name character; otherwise the maximal name prefix |
| ParserGfa1.ParseNameOf | rs-gfa2/src/parser_gfa.rs:22-25 | a name followed by a non-printable byte is read whole |
| ParserGfa1.ParseHeaderTag | rs-gfa2/src/parser_gfa.rs:28-31 | reads `VN:Z:1.0`-shaped text exactly when the input starts with it, and nothing otherwise |
| ParserGfa1.ParseHeader | rs-gfa2/src/parser_gfa.rs:34-42 | the header parser never fails |
| ParserGfa1.ParseSequence | rs-gfa2/src/parser_gfa.rs:45-48 | fails exactly when the input starts with neither `*` nor a sequence character; otherwise `*` or a maximal sequence |
| ParserGfa1.ParseSequenceOf | rs-gfa2/src/parser_gfa.rs:45-48 | a sequence followed by a non-sequence byte is read whole |
| ParserGfa1.ParseOrient | rs-gfa2/src/parser_gfa.rs:51-55 | succeeds exactly on a leading `+` or `-`, and reads the orientation that prints as it |
| ParserGfa1.ParseOrientOf | rs-gfa2/src/parser_gfa.rs:51-55 | a printed orientation reads back as itself |
| ParserGfa1.ParseOverlap | rs-gfa2/src/parser_gfa.rs:58-61 | fails exactly when the input starts with neither `*` nor a CIGAR unit; otherwise the value is `*` or a CIGAR string after which no further CIGAR unit follows |
| ParserGfa1.CigarLengthSound | rs-gfa2/src/parser_gfa.rs:58-61 | the greedy run of CIGAR units, when not empty, is a CIGAR string |
| ParserGfa1.CigarLengthMaximal | rs-gfa2/src/parser_gfa.rs:58-61 | no CIGAR unit follows the greedy run |
| ParserGfa1.CigarLengthOf | rs-gfa2/src/parser_gfa.rs:58-61 | a CIGAR string followed by a non-digit is matched whole |
| ParserGfa1.ParseOverlapOf | rs-gfa2/src/parser_gfa.rs:58-61 | an overlap followed by a non-digit is read whole |
| ParserGfa1.ParseOptionalFields | rs-gfa2/src/parser_gfa.rs:64-79 | never fails; the captured text is the fields the greedy repetition reads, each after a tab and each a field of the record's set; no further tab-led field of the set follows |
| ParserGfa1.IntegerLengthSound | rs-gfa2/src/parser_gfa.rs:64-79 | the greedy integer run, when not empty, is an optionally signed integer |
| ParserGfa1.FieldLengthSound | rs-gfa2/src/parser_gfa.rs:64-79 | the length the field matcher reads, when not zero, covers a field of the set |
| ParserGfa1.MatchedFields | rs-gfa2/src/parser_gfa.rs:64-79 | every field the repetition reads is a field of the set |
| ParserGfa1.OptionalFieldsMatched | rs-gfa2/src/parser_gfa.rs:64-79 | the repetition's text is its fields, each after a tab |
| ParserGfa1.OptionalFieldsMaximal | rs-gfa2/src/parser_gfa.rs:64-79 | no tab-led field of the set follows the repetition |
| ParserGfa1.ParseOptionalFieldsOf | rs-gfa2/src/parser_gfa.rs:64-79 | fields of the record's set, each after a tab, are captured whole and split back into the same list |
| ParserGfa1.FieldSetsWellFormed | rs-gfa2/src/parser_gfa.rs:64-79 | the segment, link and containment field sets have alphanumeric tags |
| ParserGfa1.FieldHasNoTab | rs-gfa2/src/parser_gfa.rs:64-79 | a field of a well-formed set holds no tab |
| ParserGfa1.OverlapList | rs-gfa2/src/parser_gfa.rs:169 | the overlap list parser never fails |
| ParserGfa1.ParseComment | rs-gfa2/src/parser_gfa.rs:181-189 | never fails; the comment is a prefix of printable characters and spaces, and the next character is neither |
| ParserGfa1.ParseSegment | rs-gfa2/src/parser_gfa.rs:82-99 | defines `parse_segment`: name, tab, sequence, optional fields; `Gfa1RoundTrip.SegmentRoundTrip` states its completeness |
| ParserGfa1.ParseLink | rs-gfa2/src/parser_gfa.rs:102-128 | defines `parse_link` field by field; `Gfa1RoundTrip.LinkRoundTrip` states its completeness |
| ParserGfa1.ParseContainment | rs-gfa2/src/parser_gfa.rs:131-160 | defines `parse_containment`; its precondition is the `parse().unwrap()` of the position; `Gfa1RoundTrip.ContainmentRoundTrip` states its completeness |
| ParserGfa1.ParsePath | rs-gfa2/src/parser_gfa.rs:163-178 | defines `parse_path`: name, segment names, overlaps; `Gfa1RoundTrip.PathRoundTrip` states its completeness |
| ParserGfa1.ParseRecord | rs-gfa2/src/parser_gfa.rs:192-231 | defines the dispatch of `parse_line` on the record letter; `ParserGfa1.RecordKind` states that the letter decides the kind |
| ParserGfa1.ParseLine | rs-gfa2/src/parser_gfa.rs:192-231 | a record line that parses has a tab after its letter; a comment line that parses has a space after `#` |
| ParserGfa1.RecordKind | rs-gfa2/src/parser_gfa.rs:192-231 | a record parsed after a letter is the kind that letter names |
| ParserGfa1.ParseLineKind | rs-gfa2/src/parser_gfa.rs:192-231 | a parsed line is the kind its first character names |
| ParserGfa1.ParseGfa | rs-gfa2/src/parser_gfa.rs:278-306 | the loop adds each parsed line to the document in file order, and stops with `None` at the first line that fails |
| ParserGfa1.ParseFrom | rs-gfa2/src/parser_gfa.rs:278-306 | defines the lines read into a document in file order, `None` at the first failure; `ParserGfa1.ParseGfa` and `Gfa1RoundTrip.GfaRoundTrip` state its meaning |
| Gfa1RoundTrip.HeaderRoundTrip | rs-gfa2/src/parser_gfa.rs:198-202 | a valid header line reads back as its header, with nothing left |
| Gfa1RoundTrip.SegmentRoundTrip | rs-gfa2/src/parser_gfa.rs:82-99 | a valid segment line reads back as its segment; only the trailing tab is left |
| Gfa1RoundTrip.LinkRoundTrip | rs-gfa2/src/parser_gfa.rs:102-128 | a valid link line reads back as its link; only the trailing tab is left |
| Gfa1RoundTrip.ContainmentRoundTrip | rs-gfa2/src/parser_gfa.rs:131-160 | a valid containment line reads back as its containment; only the trailing tab is left |
| Gfa1RoundTrip.PathRoundTrip | rs-gfa2/src/parser_gfa.rs:163-178 | a valid path line reads back as its path; only the trailing comma of a non-empty overlap list is left |
| Gfa1RoundTrip.OverlapListOf | rs-gfa2/src/parser_gfa.rs:169 | overlaps, each followed by a comma, read back as the same list |
| Gfa1RoundTrip.SegmentNamesOf | rs-gfa2/src/parser_gfa.rs:168 | segment names, each followed by a comma, read as one name that `split_terminator` splits back into the names |
| Gfa1RoundTrip.TrailingFields | rs-gfa2/src/parser_gfa.rs:89-90 | optional fields, each followed by a tab, read back as the same list; only the last tab is left |
| Gfa1RoundTrip.ParseBareSegment | rs-gfa2/src/parser_gfa.rs:326-338 | a segment body with no optional fields parses to the segment with an empty field list |
| Gfa1RoundTrip.AddRecords | rs-gfa2/src/parser_gfa.rs:290-302 | adding the records of a comment-free document to an empty one rebuilds it |
| Gfa1RoundTrip.RecordLinesRead | rs-gfa2/src/parser_gfa.rs:278-306 | every record line of a valid document reads back as its record |
| Gfa1RoundTrip.GfaRoundTrip | rs-gfa2/src/parser_gfa.rs:278-306 | parsing the record lines of a valid document, in print order, gives the document back |
| Gfa1RoundTrip.GfaTextRoundTrip | rs-gfa2/src/gfa.rs:512-524 | parsing the printed text of a valid document, split into lines, gives the document back |
| Gfa2.NewGfa2 | rs-gfa2/src/gfa2/gfa2.rs:809-837 | the new document has no record lines and prints as the six section-separating newlines |
| Gfa2.HeaderText | rs-gfa2/src/gfa2/gfa2.rs:58-69 | defines `Display for Header`; `Gfa2RoundTrip.HeaderRoundTrip` states that it reads back |
| Gfa2.SegmentText | rs-gfa2/src/gfa2/gfa2.rs:143-156 | defines `Display for Segment`, each column followed by a tab; `Gfa2RoundTrip.SegmentRoundTrip` states that it reads back |
| Gfa2.FragmentText | rs-gfa2/src/gfa2/gfa2.rs:271-288 | defines `Display for Fragment`; `Gfa2RoundTrip.FragmentRoundTrip` states that it reads back |
| Gfa2.EdgeText | rs-gfa2/src/gfa2/gfa2.rs:425-443 | defines `Display for Edge`; `Gfa2RoundTrip.EdgeRoundTrip` states that it reads back |
| Gfa2.GapText | rs-gfa2/src/gfa2/gfa2.rs:537-552 | defines `Display for Gap`; `Gfa2RoundTrip.GapRoundTrip` states that it reads back |
| Gfa2.GroupOTextAsWritten | rs-gfa2/src/gfa2/gfa2.rs:620-634 | defines `Display for GroupO` as the source writes it, a space after every member; `Gfa2RoundTrip.GroupOTagsLost` states that its tags do not read back |
| Gfa2.GroupOText | rs-gfa2/src/gfa2/gfa2.rs:620-634 | the CORRECTED `Display for GroupO`, not the source's: members joined by single spaces; `Gfa2RoundTrip.GroupORoundTrip` states that it reads back |
| Gfa2.GroupUTextAsWritten | rs-gfa2/src/gfa2/gfa2.rs:702-716 | defines `Display for GroupU` as the source writes it, a space after every member; `Gfa2RoundTrip.GroupUTagsLost` states that its tags do not read back |
| Gfa2.GroupUText | rs-gfa2/src/gfa2/gfa2.rs:702-716 | the CORRECTED `Display for GroupU`, not the source's; `Gfa2RoundTrip.GroupURoundTrip` states that it reads back |
| Gfa2.RecordLines | rs-gfa2/src/gfa2/gfa2.rs:823-837 | defines the record lines `Display for GFA2` writes, in section order, with the source's group lines; `Gfa2RoundTrip.DocumentDropsGroupTags` states how they read back |
| Gfa2.CorrectedRecordLines | rs-gfa2/src/gfa2/gfa2.rs:823-837 | the same lines with the CORRECTED group lines; `Gfa2RoundTrip.DocumentRoundTrip` states that they read back as the document |
| Gfa2.Gfa2Text | rs-gfa2/src/gfa2/gfa2.rs:823-837 | defines `Display for GFA2`: each section's lines (the source's group lines included), each followed by a newline, with one more newline between sections |
| ParserGfa2.ParseWord | rs-gfa2/src/parser_gfa2.rs:30-33 | fails exactly on a leading non-printable byte; otherwise the maximal printable run |
| ParserGfa2.ParseWordOf | rs-gfa2/src/parser_gfa2.rs:30-33 | a word followed by a non-printable byte is read whole |
| ParserGfa2.ParseOptId | rs-gfa2/src/parser_gfa2.rs:30-33 | defines `parse_opt_id`: `[!-~]+\|\*` reads as `ParserGfa2.ParseWord`, whose contract it inherits, because `*` is printable |
| ParserGfa2.ParsePos | rs-gfa2/src/parser_gfa2.rs:64-67 | defines `parse_pos`: `[!-~]+\$?` reads as `ParserGfa2.ParseWord`, because `$` is printable |
| ParserGfa2.ParseId | rs-gfa2/src/parser_gfa2.rs:24-27 | fails exactly on a leading non-printable byte; otherwise an id, printable words joined by single spaces, that what follows cannot continue: no printable byte, and no space followed by one |
| ParserGfa2.IdTailSound | rs-gfa2/src/parser_gfa2.rs:24-27 | the continuation after the first word, when not empty, is a space and an id |
| ParserGfa2.IdTailMaximal | rs-gfa2/src/parser_gfa2.rs:24-27 | no space and printable byte follow the continuation |
| ParserGfa2.ParseIdOf | rs-gfa2/src/parser_gfa2.rs:24-27 | words joined by single spaces are read as one id when what follows cannot continue it |
| ParserGfa2.ParseRef | rs-gfa2/src/parser_gfa2.rs:36-39 | fails exactly when no reference starts the input; otherwise a list of references joined by single spaces, after which no space and reference follow |
| ParserGfa2.RefTailSound | rs-gfa2/src/parser_gfa2.rs:36-39 | the continuation after the first reference, when not empty, is a space and a list of references |
| ParserGfa2.RefTailMaximal | rs-gfa2/src/parser_gfa2.rs:36-39 | no space and reference follow the continuation |
| ParserGfa2.ParseRefOf | rs-gfa2/src/parser_gfa2.rs:36-39 | a reference followed by a tab is read whole |
| ParserGfa2.ParseTags | rs-gfa2/src/parser_gfa2.rs:42-45 | never fails; reads nothing exactly when no tag starts the input; the captured text is the tags the greedy repetition reads, each after a tab and each a tag; no further tag follows, and the last tag's value runs to a byte that is neither printable nor a space |
| ParserGfa2.MatchedTags | rs-gfa2/src/parser_gfa2.rs:42-45 | every tag the repetition reads is a tag |
| ParserGfa2.TagsMatched | rs-gfa2/src/parser_gfa2.rs:42-45 | the repetition's text is its tags, each after a tab |
| ParserGfa2.TagsMaximal | rs-gfa2/src/parser_gfa2.rs:42-45 | no tag starts after the repetition |
| ParserGfa2.ParseTagsOf | rs-gfa2/src/parser_gfa2.rs:42-45 | tags, each after a tab, are captured whole and split back into the same list |
| ParserGfa2.ParseSequence | rs-gfa2/src/parser_gfa2.rs:48-51 | fails exactly on a leading non-printable byte; a leading `*` is read alone; otherwise the value is the whole printable run |
| ParserGfa2.ParseSequenceOf | rs-gfa2/src/parser_gfa2.rs:48-51 | a sequence followed by a non-printable byte is read whole |
| ParserGfa2.ParseInt | rs-gfa2/src/parser_gfa2.rs:70-73 | fails exactly when no signed integer starts the input; otherwise a maximal one |
| ParserGfa2.ParseIntOf | rs-gfa2/src/parser_gfa2.rs:70-73 | an integer followed by a non-digit is read whole |
| ParserGfa2.ParseVar | rs-gfa2/src/parser_gfa2.rs:76-79 | fails exactly when neither `*` nor an integer starts the input; otherwise `*`, or an integer after which no digit follows |
| ParserGfa2.ParseVarOf | rs-gfa2/src/parser_gfa2.rs:76-79 | `*` or an integer followed by a non-digit is read whole |
| ParserGfa2.ParseAlignment | rs-gfa2/src/parser_gfa2.rs:54-61 | fails exactly when neither `*`, nor a CIGAR, nor a trace starts the input; the value is an alignment; when a CIGAR matches it is the longest run of CIGAR units; otherwise it is a trace that no digit, and no comma and number, can continue |
| ParserGfa2.CigarLengthSound | rs-gfa2/src/parser_gfa2.rs:54-61 | the greedy run of CIGAR units, when not empty, is a CIGAR string |
| ParserGfa2.CigarLengthMaximal | rs-gfa2/src/parser_gfa2.rs:54-61 | no CIGAR unit follows the greedy run |
| ParserGfa2.SignedDigitsMaximal | rs-gfa2/src/parser_gfa2.rs:54-61 | no digit follows a signed number of the trace |
| ParserGfa2.TraceTailSound | rs-gfa2/src/parser_gfa2.rs:54-61 | the continuation after the first number, when not empty, is a comma and a trace |
| ParserGfa2.TraceTailMaximal | rs-gfa2/src/parser_gfa2.rs:54-61 | no comma and number follow the continuation |
| ParserGfa2.TraceTailEndsNumber | rs-gfa2/src/parser_gfa2.rs:54-61 | no digit follows the continuation |
| ParserGfa2.ParseCigarOf | rs-gfa2/src/parser_gfa2.rs:54-61 | a CIGAR followed by a non-digit is read whole |
| ParserGfa2.ParseHeaderTag | rs-gfa2/src/parser_gfa2.rs:82-85 | never fails; a leading `VN:Z:2.0`-shaped version is kept; the rest of the value is empty only when no trace spacing follows, and otherwise is one `\tTS:i:` trace spacing whose value is `*` or the whole printable run |
| ParserGfa2.TraceSpacingSound | rs-gfa2/src/parser_gfa2.rs:82-85 | the trace spacing the matcher reads, when not empty, is `\tTS:i:` and a sequence value |
| ParserGfa2.ParseHeaderTagOf | rs-gfa2/src/parser_gfa2.rs:82-85 | a version with no trace spacing after it is read whole |
| ParserGfa2.ParseHeader | rs-gfa2/src/parser_gfa2.rs:88-101 | the header parser never fails |
| ParserGfa2.ParseSegment | rs-gfa2/src/parser_gfa2.rs:104-123 | defines `parse_segment` field by field; `Gfa2RoundTrip.SegmentRoundTrip` states its completeness |
| ParserGfa2.ParsePositions | rs-gfa2/src/parser_gfa2.rs:126-156 | defines the four tab-separated `parse_pos` columns of `parse_fragment` and `parse_edge` |
| ParserGfa2.ParseFragment | rs-gfa2/src/parser_gfa2.rs:126-156 | defines `parse_fragment` field by field; `Gfa2RoundTrip.FragmentRoundTrip` states its completeness |
| ParserGfa2.ParseEdge | rs-gfa2/src/parser_gfa2.rs:159-192 | defines `parse_edge` field by field; `Gfa2RoundTrip.EdgeRoundTrip` states its completeness |
| ParserGfa2.ParseGap | rs-gfa2/src/parser_gfa2.rs:195-220 | defines `parse_gap` field by field; `Gfa2RoundTrip.GapRoundTrip` states its completeness |
| ParserGfa2.ParseGroup | rs-gfa2/src/parser_gfa2.rs:223-262 | defines the fields `parse_ogroup` and `parse_ugroup` share: optional id, tab, member field, tags; `Gfa2RoundTrip.ParseGroupAsWritten` states what it does with a trailing space |
| ParserGfa2.ParseGroupO | rs-gfa2/src/parser_gfa2.rs:223-241 | succeeds exactly when the group fields parse |
| ParserGfa2.ParseGroupU | rs-gfa2/src/parser_gfa2.rs:244-262 | succeeds exactly when the group fields parse |
| ParserGfa2.ParseComment | rs-gfa2/src/parser_gfa2.rs:265-273 | never fails; reads the maximal run of printable characters and spaces |
| ParserGfa2.ParseLine | rs-gfa2/src/parser_gfa2.rs:284-336 | an unknown first character makes the whole line a custom record; a record line that parses has a tab after its letter; a comment parses exactly when `#` is followed by a space |
| ParserGfa2.ParseGfa | rs-gfa2/src/parser_gfa2.rs:387-421 | the loop adds each parsed line to the document in file order, and stops with `None` at the first line that fails |
| ParserGfa2.ParseRecord | rs-gfa2/src/parser_gfa2.rs:284-336 | defines the dispatch of `parse_line` on the record letter |
| ParserGfa2.ParseFrom | rs-gfa2/src/parser_gfa2.rs:387-421 | defines the lines read into a document in file order, `None` at the first failure; `ParserGfa2.ParseGfa` and `Gfa2RoundTrip.DocumentRoundTrip` state its meaning |
| Gfa2RoundTrip.HeaderRoundTrip | rs-gfa2/src/parser_gfa2.rs:88-101 | a valid header line reads back as its header; only the trailing tab is left; a header whose first tag is `TS:i:...` is not valid, because `parse_header_tag` folds that tag into the header tag |
| Gfa2RoundTrip.SegmentRoundTrip | rs-gfa2/src/parser_gfa2.rs:104-123 | a valid segment line reads back as its segment |
| Gfa2RoundTrip.FragmentRoundTrip | rs-gfa2/src/parser_gfa2.rs:126-156 | a valid fragment line reads back as its fragment |
| Gfa2RoundTrip.EdgeRoundTrip | rs-gfa2/src/parser_gfa2.rs:159-192 | a valid edge line reads back as its edge |
| Gfa2RoundTrip.GapRoundTrip | rs-gfa2/src/parser_gfa2.rs:195-220 | a valid gap line reads back as its gap |
| Gfa2RoundTrip.GroupORoundTrip | rs-gfa2/src/parser_gfa2.rs:223-241 | the corrected ordered-group line, with no space after the last member, reads back as its group, tags included |
| Gfa2RoundTrip.GroupURoundTrip | rs-gfa2/src/parser_gfa2.rs:244-262 | the corrected unordered-group line reads back as its group, tags included |
| Gfa2RoundTrip.GroupOTagsLost | rs-gfa2/src/gfa2/gfa2.rs:620-634 | the ordered-group line as printed parses without its tags, so a group with tags does not read back as itself |
| Gfa2RoundTrip.GroupUTagsLost | rs-gfa2/src/gfa2/gfa2.rs:702-716 | the same loss for unordered groups |
| Gfa2RoundTrip.ParseGroupAsWritten | rs-gfa2/src/parser_gfa2.rs:223-241 | after the member field of the printed group, the trailing space stops the parse, so no tag is read |
| Gfa2RoundTrip.MembersOf | rs-gfa2/src/parser_gfa2.rs:227-228 | members joined by single spaces are read as one field that splits back into the members |
| Gfa2RoundTrip.TrailingTags | rs-gfa2/src/parser_gfa2.rs:111-113 | tags, each followed by a tab, read back as the same list; only the last tab is left |
| Gfa2RoundTrip.ParseTraceOf | rs-gfa2/src/parser_gfa2.rs:54-61 | a trace followed by a tab is read whole as the alignment |
| Gfa2RoundTrip.AlignmentOf | rs-gfa2/src/parser_gfa2.rs:54-61 | any valid alignment (`*`, CIGAR or trace) followed by a tab is read whole |
| Gfa2RoundTrip.TraceIsNoCigar | rs-gfa2/src/parser_gfa2.rs:54-61 | no part of a trace is taken for a CIGAR |
| Gfa2RoundTrip.AddRecords | rs-gfa2/src/parser_gfa2.rs:387-421 | adding the records of a document without comments or custom records to an empty one rebuilds it |
| Gfa2RoundTrip.RecordLinesRead | rs-gfa2/src/parser_gfa2.rs:284-336 | every CORRECTED record line of a valid document reads back as its record (the corrected half of both Findings rows) |
| Gfa2RoundTrip.DocumentRoundTrip | rs-gfa2/src/parser_gfa2.rs:387-421 | parsing the CORRECTED record lines of a valid document, in print order, gives the document back |
| Gfa2RoundTrip.RecordLinesReadAsWritten | rs-gfa2/src/gfa2/gfa2.rs:823-837 | every record line the source prints for a valid document reads back as its record, except that each group comes back without its tags |
| Gfa2RoundTrip.DocumentDropsGroupTags | rs-gfa2/src/gfa2/gfa2.rs:823-837 | parsing the record lines the source prints gives the document with every group's tags dropped, so it gives the document back exactly when no group has a tag |
| Gfa2RoundTrip.TagsDroppedSame | rs-gfa2/src/gfa2/gfa2.rs:620-634 | dropping the group tags leaves a document unchanged exactly when no group has a tag |
| PrintGfa2.WriteOptionalFields | rs-gfa2/src/print_gfa_2.rs:10-19 | appends each field's text after a tab, in order |
| PrintGfa2.WriteHeader | rs-gfa2/src/print_gfa_2.rs:21-27 | appends the header line: `H`, then `VN:Z:` and the version when there is one, then the fields |
| PrintGfa2.WriteSegment | rs-gfa2/src/print_gfa_2.rs:30-38 | appends the segment's line |
| PrintGfa2.WriteFragment | rs-gfa2/src/print_gfa_2.rs:41-59 | appends the fragment's line |
| PrintGfa2.WriteEdge | rs-gfa2/src/print_gfa_2.rs:62-81 | appends the edge's line |
| PrintGfa2.WriteGap | rs-gfa2/src/print_gfa_2.rs:84-100 | appends the gap's line |
| PrintGfa2.WriteOgroup | rs-gfa2/src/print_gfa_2.rs:103-116 | appends the O-group's line |
| PrintGfa2.WriteUgroup | rs-gfa2/src/print_gfa_2.rs:119-132 | appends the U-group's line |
| PrintGfa2.WriteSection | rs-gfa2/src/print_gfa_2.rs:156-159 | appends each record's line, followed by a newline, in order |
| PrintGfa2.PrintGfa2 | rs-gfa2/src/print_gfa_2.rs:152-190 | appends the lines of headers, segments, fragments, edges, gaps, O-groups and U-groups, in that order, each followed by a newline |
| PrintGfa2.Gfa2ToString | rs-gfa2/src/print_gfa_2.rs:192-196 | the result is exactly the document's printed text |
| PrintGfa2.SegmentLeadIsPrefixed | rs-gfa2/src/print_gfa_2.rs:34 | a segment line starts `S` and has id, length and sequence, each after a tab |
| PrintGfa2.FragmentLeadIsPrefixed | rs-gfa2/src/print_gfa_2.rs:45-55 | a fragment line starts `F` and has its seven fields, each after a tab |
| PrintGfa2.EdgeLeadIsPrefixed | rs-gfa2/src/print_gfa_2.rs:66-77 | an edge line starts `E` and has its eight fields, each after a tab |
| PrintGfa2.GapLeadIsPrefixed | rs-gfa2/src/print_gfa_2.rs:88-96 | a gap line starts `G` and has its five fields, each after a tab |
| PrintGfa2.GroupOLeadIsPrefixed | rs-gfa2/src/print_gfa_2.rs:107-112 | an O-group line starts `O` and has id and member field, each after a tab |
| PrintGfa2.GroupULeadIsPrefixed | rs-gfa2/src/print_gfa_2.rs:123-128 | a U-group line starts `U` and has id and member field, each after a tab |
| PrintGfa2.LineIsJoined | rs-gfa2/src/print_gfa_2.rs:10-132 | a record's line is its columns joined by tabs |
| PrintGfa2.LineSplits | rs-gfa2/src/print_gfa_2.rs:10-132 | when no column holds a tab, splitting a line at tabs gives its columns back |
| PrintGfa2.AbsentFromLine | rs-gfa2/src/print_gfa_2.rs:10-132 | a character other than tab is in a line only if some column holds it |
| PrintGfa2.DocumentReadsBack | rs-gfa2/src/print_gfa_2.rs:152-190 | the printed text of a document with plain columns splits into one line per record, in order, and each line into its record's columns |
| PrintGfa2.DisplayIsLinePlusTab | rs-gfa2/src/gfa2/gfa2.rs:143-716 | the `Display` text of a record other than a group is the writer's line plus one trailing tab; for a group, `Display` also puts a space between the member field and the optional fields |
| PrintGfa2.DisplayIsLeadThenTags | rs-gfa2/src/gfa2/gfa2.rs:143-716 | `Display` writes the fixed fields, a space for a group only, a tab, then every field followed by a tab |
| NameMap.MapName | src/gfa2/name_conversion.rs:166-168 | `Some` exactly for a name in the map, with its index |
| NameMap.InverseMapName | src/gfa2/name_conversion.rs:170-172 | `Some` exactly for an index below the inverse vector's length, with the name stored there |
| NameMap.LookupsInverse | src/gfa2/name_conversion.rs:166-172 | on a valid map the two lookups undo each other, in both directions |
| NameMap.InternValid | src/gfa2/name_conversion.rs:456-467 | `get_ix` keeps the two tables mutual inverses; a known name keeps its index; a new one gets the next index |
| NameMap.Intern | src/gfa2/name_conversion.rs:456-467 | defines the `get_ix` closure: a known name leaves the tables as they are; a new one is appended with the next index; `NameMap.InternValid` states what it keeps |
| NameMap.GetIx | src/gfa2/name_conversion.rs:456-467 | returns the stored index of a known name, or the table size for a new one, and updates the tables |
| NameMap.InternedFacts | src/gfa2/name_conversion.rs:452-492 | interning a list builds a bijection between its distinct names and `0..n-1` |
| NameMap.InternedOrder | src/gfa2/name_conversion.rs:452-492 | a name first seen later gets a larger index |
| NameMap.InternAll | src/gfa2/name_conversion.rs:471-473 | one interning loop extends the tables by one record list, in order |
| NameMap.MapRecords | src/gfa2/name_conversion.rs:342-347 | `None` exactly when some id is not in the map; otherwise every record with its index, other fields kept |
| NameMap.UnmapRecords | src/gfa2/name_conversion.rs:403-408 | `None` exactly when some index is out of range; otherwise every record with its name, other fields kept |
| NameMap.RecordsRoundTrip | src/gfa2/name_conversion.rs:342-408 | mapping names to indices and back gives the records back |
| NameMap.IndicesRoundTrip | src/gfa2/name_conversion.rs:342-408 | mapping indices to names and back gives the records back |
| NameMap.MapRecordsLoop | src/gfa2/name_conversion.rs:342-347 | the loop that returns early at the first unknown name computes `MapRecords` |
| NameMap.UnmapRecordsLoop | src/gfa2/name_conversion.rs:403-408 | the loop that returns early at the first index out of range computes `UnmapRecords` |
| NameMap.FromNameMap | src/gfa2/name_conversion.rs:89-107 | the text form holds the same tables and hash |
| NameMap.IntoNameMap | src/gfa2/name_conversion.rs:109-130 | the map holds the same tables and hash as its text form |
| NameMap.TextRoundTrip | src/gfa2/name_conversion.rs:89-130 | saving a map as text and loading it again gives the same map |
| NameMap.HeadersHashed | src/gfa2/name_conversion.rs:27-29 | the hasher is fed every header's version, in order |
| NameConversion.BuiltFacts | rs-gfa2/src/gfa2/name_conversion.rs:324-372 | the built map is a bijection between the distinct ids of all record kinds and `0..n-1`, in first-occurrence order, and stores the document's hash |
| NameConversion.BuildFromGfa2 | rs-gfa2/src/gfa2/name_conversion.rs:324-372 | the interning loops over segments, fragments, edges, gaps, O-groups and U-groups build the map |
| NameConversion.ToUsize | rs-gfa2/src/gfa2/name_conversion.rs:183-255 | `None` on a hash mismatch when asked to check; otherwise `None` exactly when some id is not in the map; otherwise every id replaced by its index |
| NameConversion.ToBString | rs-gfa2/src/gfa2/name_conversion.rs:257-322 | `None` exactly when some index is out of range; otherwise every index replaced by its name |
| NameConversion.GfaBStringToUsize | rs-gfa2/src/gfa2/name_conversion.rs:183-255 | the hash check and the early-returning loops compute `ToUsize` |
| NameConversion.GfaUsizeToBString | rs-gfa2/src/gfa2/name_conversion.rs:257-322 | the early-returning loops compute `ToBString` |
| NameConversion.BuiltMapsAll | rs-gfa2/src/gfa2/name_conversion.rs:324-372 | the map built from a document covers every id of it |
| NameConversion.BuiltRoundTrip | rs-gfa2/src/gfa2/name_conversion.rs:183-372 | the document a map was built from converts to indices, with or without the hash check, and back to itself |
| NameConversion.IndexedRoundTrip | rs-gfa2/src/gfa2/name_conversion.rs:183-322 | an indexed document whose indices are in range converts to names and back to itself |
| NameConversion.StaleMapRefused | rs-gfa2/src/gfa2/name_conversion.rs:189-193 | with the hash checked, a document whose hash differs from the stored one is refused |
| AppNameConversion.BuiltFacts | src/gfa2/name_conversion.rs:452-492 | the built map is a bijection between the distinct segment, fragment, edge and gap ids and `0..n-1`; group ids are not interned |
| AppNameConversion.BuildFromGfa2 | src/gfa2/name_conversion.rs:452-492 | the four interning loops build the map |
| AppNameConversion.Tokens | src/gfa2/name_conversion.rs:179-180 | the members of a group are non-empty and hold no space |
| AppNameConversion.Pieces | src/gfa2/name_conversion.rs:179-187 | `Some` exactly when every member converts; then each member converted, in order |
| AppNameConversion.ConvertGroup | src/gfa2/name_conversion.rs:174-209 | `Some` exactly when every member converts; then the same id and tags, with the converted members joined by single spaces |
| AppNameConversion.RenderMembers | src/gfa2/name_conversion.rs:178-201 | no miss exactly when every member converts; then the text is the converted members joined by single spaces |
| AppNameConversion.MapOgroupSegments | src/gfa2/name_conversion.rs:174-209 | computes the O-group conversion from names to indices, orientations kept |
| AppNameConversion.InverseMapOgroupSegments | src/gfa2/name_conversion.rs:211-246 | computes the O-group conversion from indices to names |
| AppNameConversion.MapUgroupSegments | src/gfa2/name_conversion.rs:248-283 | computes the U-group conversion from names to indices |
| AppNameConversion.InverseMapUgroupSegments | src/gfa2/name_conversion.rs:285-320 | computes the U-group conversion from indices to names |
| AppNameConversion.TokensOfJoined | src/gfa2/name_conversion.rs:188-197 | members joined by single spaces are read back as the same members |
| AppNameConversion.OGroupRoundTrip | src/gfa2/name_conversion.rs:174-246 | converting an O-group to indices and back gives it again |
| AppNameConversion.OMemberRoundTrip | src/gfa2/name_conversion.rs:174-246 | one O-group member, converted to its index and back, is itself |
| AppNameConversion.UGroupRoundTrip | src/gfa2/name_conversion.rs:248-320 | converting a U-group to indices and back gives it again |
| AppNameConversion.GroupsConverted | src/gfa2/name_conversion.rs:370-378 | `None` exactly when some group misses; otherwise every group converted, in order |
| AppNameConversion.ToUsizeMeaning | src/gfa2/name_conversion.rs:323-389 | `None` on a hash mismatch when asked to check; otherwise `None` exactly when a record id or a group member is missing; otherwise every list converted, headers copied |
| AppNameConversion.ToBStringMeaning | src/gfa2/name_conversion.rs:391-450 | `None` exactly when a record index is out of range or a member cannot be read back; otherwise every list converted, headers copied |
| AppNameConversion.GroupsLoop | src/gfa2/name_conversion.rs:370-378 | the group loop that returns early at the first miss computes `GroupsConverted` |
| AppNameConversion.Gfa2BStringToUsize | src/gfa2/name_conversion.rs:323-389 | the hash check and the early-returning loops compute the conversion to indices |
| AppNameConversion.Gfa2UsizeToBString | src/gfa2/name_conversion.rs:391-450 | the early-returning loops compute the conversion back to names |
| AppNameConversion.GroupsRoundTrip | src/gfa2/name_conversion.rs:174-320 | the groups of a well-formed document convert to indices and back to themselves |
| AppNameConversion.RecordListsRoundTrip | src/gfa2/name_conversion.rs:342-428 | the record lists convert to indices and back to themselves |
| AppNameConversion.BuiltRoundTrip | src/gfa2/name_conversion.rs:511-526 | the document a map was built from converts to indices and back to itself |
| AppNameConversion.UnknownMemberRefused | src/gfa2/name_conversion.rs:248-283 | a U-group naming anything that is not a segment, fragment, edge or gap (another group, say) cannot be converted |
| GraphError.ParseMessage | src/graphoperation/error.rs:17-46 | reads a `Display` message back as an error |
| GraphError.Message | src/graphoperation/error.rs:17-46 | defines `Display for GraphOperationError`, one message per variant; `GraphError.ParseMessageOfMessage` and `GraphError.MessageInjective` state that it can be read back |
| GraphError.ParseNodesMessage | src/graphoperation/error.rs:25-29 | the message of `NodesNotExist` reads back as the error |
| GraphError.ParseEdgeMessage | src/graphoperation/error.rs:30-32 | the message of `EdgeNotExist` reads back as the error |
| GraphError.ParsePathMessage | src/graphoperation/error.rs:33-35 | the message of `PathNotExist` reads back as the error |
| GraphError.ParseOrientationMessage | src/graphoperation/error.rs:36-40 | the message of `OrientationNotExists` reads back as the error |
| GraphError.ParseUnknownMessage | src/graphoperation/error.rs:41-43 | the message of `Unknown` reads back as the error |
| GraphError.ParseMessageOfMessage | src/graphoperation/error.rs:17-46 | every readable error's message reads back as the error |
| GraphError.MessageInjective | src/graphoperation/error.rs:17-46 | two readable errors with the same message are the same error |
| GraphOperation.ParseOrientation | src/graphoperation.rs:87-95 | an orientation is read exactly from `+` or `-` |
| GraphOperation.OrientationRoundTrip | src/graphoperation.rs:87-95 | printing and reading an orientation are inverse |
| GraphOperation.ReplacementOrientation | src/graphoperation.rs:342-352 | the replacement orientation is the one read, or the default `Forward` |
| GraphOperation.ParseStep | src/graphoperation.rs:158-172 | a step succeeds exactly when its last byte is `+` or `-`, and gives the id before it and that orientation; otherwise `OrientationNotExists` with the whole step |
| GraphOperation.ParseStepOfHandle | src/graphoperation.rs:158-172 | a printed handle reads back as itself |
| GraphOperation.ReadSteps | src/graphoperation.rs:158-175 | no error exactly when every step is read |
| GraphOperation.ReadStepsHandles | src/graphoperation.rs:158-175 | handle `k` is step `k` parsed |
| GraphOperation.ReadStepsError | src/graphoperation.rs:158-175 | an error is the one of the first step that fails, right after the handles read |
| GraphOperation.ReadStepsAt | src/graphoperation.rs:158-175 | a step up to the first failure is read as its handle, or it is the failure |
| GraphOperation.ReadStepsOfHandles | src/graphoperation.rs:158-175 | printed handles are all read back, with no error |
| GraphOperation.OrientationError | src/graphoperation.rs:87-104 | no error exactly when both orientations read; otherwise `OrientationNotExists` with the first node that fails |
| GraphOperation.AddNode | src/graphoperation.rs:51-68 | an existing id gives `IdAlreadyExist` and no change; otherwise the node is added with its sequence or the default |
| GraphOperation.AddLink | src/graphoperation.rs:78-122 | an orientation error, then a refused creation, give their errors; otherwise exactly the new edge is added |
| GraphOperation.RemoveLink | src/graphoperation.rs:211-253 | an orientation error, or an absent edge, give their errors; otherwise exactly that edge is removed |
| GraphOperation.ModifyLink | src/graphoperation.rs:310-388 | requires both replacement orientations once the original ones are valid, as the `unwrap`s at 342 and 348 panic otherwise; an orientation error, or an absent edge, give their errors; otherwise that edge is replaced by one with the new ends |
| GraphOperation.RemoveNode | src/graphoperation.rs:188-201 | an absent node gives `NodesNotExist`; otherwise exactly that node is removed |
| GraphOperation.ModifyNode | src/graphoperation.rs:285-300 | an absent node gives `NodesNotExist`; otherwise its sequence is replaced |
| GraphOperation.PathName | src/graphoperation.rs:151 | the given name, or `default_path_id` |
| GraphOperation.RemovePath | src/graphoperation.rs:263-275 | an absent path gives `PathNotExist`; otherwise exactly that path is removed |
| GraphOperation.AppendSteps | src/graphoperation.rs:158-175 | the path gets the handles read up to the first failure, and the failure is returned |
| GraphOperation.AddPath | src/graphoperation.rs:143-178 | the path is created, circular exactly when its first and last steps are equal, and gets the steps read up to the first failure, which is returned |
| GraphOperation.CollectSteps | src/graphoperation.rs:409-426 | the loop computes `ReadSteps` |
| GraphOperation.ModifyPath | src/graphoperation.rs:398-434 | a step that fails gives its error and no change; an absent path gives `PathNotExist`; otherwise the path's steps are replaced |

## Left out

- The `HashGraph` type of the `handlegraph` crate is not part of this model. The class
  `GraphOperation.HashGraph` stands in for it, with these rules:
  - an edge is created only between two existing nodes, and only if it is new;
  - removing or modifying something succeeds only when it exists;
  - creating a path replaces a path of the same name;
  - removing a node does not remove its edges or steps.
- The two `hash_gfa2` functions use `DefaultHasher`. The model passes the hasher in as
  a function, and states exactly which values are fed to it, in order.
- `Orientation::default()` belongs to a module that is not part of this model. It is taken
  to be `Forward`.
- `ParseFieldError` is not defined in the source files modelled. Its three variants come
  from `traits.rs`, the only place that uses them.
- UTF-8: `to_str().unwrap()` and `from_utf8` panic on invalid UTF-8. Every text here is a
  sequence of characters, so that panic is not modelled.
- File I/O: `parse_gfa` reads a file line by line, and `save_json`/`load_json` write and
  read JSON files. The model takes the lines as a sequence, and models only the
  conversion to and from `NameMapString`.
- Console output: the `print_*` functions of `src/graphoperation.rs:437-536` only print.
- Moves: on an error, the Rust operations drop the graph they were moved. The model
  keeps the graph, and its contracts state what happened to it up to the error (with
  `add_path`, the path and the steps read so far).
- The `GroupO::iter` and `GroupU::iter` methods belong to a module that is not part of
  this model. A member field is read as its space-separated non-empty tokens, and an
  O-group member's last character as its orientation.
- PrintGfa2.PrintGfa2: the writer does not print comments or custom records, because the
  source does not.
- `Display` of the generic `GFA2<N, T>` records is the text of each field. `N` and `T`
  are not type parameters in the model.
- Gfa2RoundTrip.DocumentRoundTrip: it reads back the record lines, not the full `Display`
  text. `GFA2`'s `Display` separates the sections with empty lines, and `parse_line`
  panics on an empty line. Its group lines are the corrected ones (see "## Findings");
  the lines the source prints are read back by `Gfa2RoundTrip.DocumentDropsGroupTags`.
- Gfa2RoundTrip.RecordLinesRead: states the corrected group lines, which the source does
  not print; `Gfa2RoundTrip.RecordLinesReadAsWritten` states what the source's lines give.
- GFA 2.0 ids that contain spaces: `ParseId` models `parse_id`'s pattern, including its
  space-separated continuation. The round trips need ids that are single words.
- ParserGfa1.ParseLine: the panics of `parse_line` are preconditions. These are an empty
  line, an unknown first character, and a containment position that does not convert.
- SegmentId.ParseUsize: models a 64-bit target only, where `usize` is 64 bits wide.

## Findings

| source | as written | input that shows it | evidently intended | confidence | as-written member | corrected member |
|---|---|---|---|---|---|---|
| rs-gfa2/src/gfa2/gfa2.rs:620-634 | `Display for GroupO` folds the members with a space after each one, so the line reads `O\tid\tm1 m2 \t…` | an O-group with id `g`, members `a+` and `b-`, and tag `xx:i:1` prints as `O\tg\ta+ b- \txx:i:1\t`. The parser's id pattern stops before the trailing space, and no tag can start at a space, so the tag is lost | the members are joined by single spaces, with none after the last, so the line reads back as the group | not executed | Gfa2RoundTrip.GroupOTagsLost | Gfa2RoundTrip.GroupORoundTrip |
| rs-gfa2/src/gfa2/gfa2.rs:702-716 | `Display for GroupU` has the same trailing space | a U-group with id `g`, members `a` and `b`, and tag `xx:i:1` loses its tag when read back | the members are joined by single spaces | not executed | Gfa2RoundTrip.GroupUTagsLost | Gfa2RoundTrip.GroupURoundTrip |
