# nutscan: the nut-scanner wrapper of fty-nut, modelled in Dafny

`src/nutscan.cc` runs the `nut-scanner` tool of Network UPS Tools against one
network address, reads the text report the tool prints, and turns each of its
sections into a configuration snippet for the device being discovered. The
tool's own section label (`[nutdev1]` and the like) is replaced by the
device's name. The file has four layers; the Dafny modules follow them, with the
parser's reference description and a worked example in modules of their own:

| module | file | models |
|---|---|---|
| `Stream` | `stream.dfy` | the `std::istringstream` the report is read from, reduced to its buffer, read position and eof/fail bits, with `peek()` and `get()` |
| `LineReader` | `line_reader.dfy` | `s_readline`, and the lines its successive calls deliver |
| `SnippetParser` | `snippet_parser.dfy` | `s_parse_nut_scanner_output`, as a state machine over lines (`Step`, `Feed`, `Finish`) and as the loop over the stream |
| `SnippetSections` | `snippet_sections.dfy` | an independent description of the parser's result, section by section, and the properties proved against it |
| `NutScan` | `nut_scan.dfy` | `s_run_nut_scanner`, `nut_scan_snmp` and `nut_scan_xml_http` |
| `Scenarios` | `scenarios.dfy` | a worked report with two sections, parsed end to end |

The tool run is an `Executor`: a function from a command line and a timeout to
an exit code, a standard output and a standard error. A probe returns a
`Probe` value. It holds the status (0 or -1), the output vector, and the
command lines run, in order.

The line reader follows the iostream rules the code depends on:
- the eof bit is set only when `peek()` or `get()` finds the buffer exhausted;
- an operation on a stream that is not good sets the fail bit.

So a report that ends in a newline gives one more read. That read returns 0
and an empty line, and the parser skips the empty line. `LinesFrom` is the
sequence of lines the reads deliver. Concatenated, these lines give back the
input exactly.

The parser keeps a buffer and a `got_name` flag. The reference description
says what comes out:
- `Body` is what one section keeps: its body lines up to the next tag, with
  blank lines dropped.
- `Bodies` lists the sections in order. Lines before the first tag belong to
  no section.
- `Render` makes a snippet of each section with a body: the header
  `"[" + name + "]\n"` followed by the body lines.

`ParseLinesCharacterised` proves that the parser pushes exactly
`Render(name, Bodies(lines))` after the existing entries. It also proves that
the parser reports a tag without data exactly when the last section has no
body.

Behaviour of the code worth knowing:
- **Success test.** `s_run_nut_scanner` reports success when the whole output
  vector is non-empty after the parse, not when the parse added something. A
  caller that passes a non-empty vector gets success even from a report with
  no snippets (`NutScan.PrefilledOutMasksEmptyReport`).
- **Skipped lines.** The parser skips lines that are empty and also lines that
  start with a newline.
- **Header line.** The header it writes ends with a newline (`std::endl`).
- **Names with a newline.** Nothing stops the device's name from holding a
  newline. The header then reads back as two lines, and a snippet parsed
  again no longer reproduces itself (`Scenarios.OddNameBreaksReparse`). The
  reparse properties are therefore stated for names without a newline.

The parser's state is modelled as its buffer plus its `got_name` flag, the
two variables the code keeps.

## Model

| member | source | states |
|---|---|---|
| Stream.Peek | src/nutscan.cc:53-59 | a peek returns the character at the read position exactly when the stream is good and not at the end of its buffer, and then changes nothing; at the end it sets the eof bit; on a stream that is not good it sets the fail bit; it never moves the position |
| Stream.Get | src/nutscan.cc:54-60 | a get returns the character at the read position exactly when the stream is good and not at the end, and then moves one character on with the stream still good; at the end it sets the eof and fail bits; when it returns end-of-file the stream is no longer good and has not moved |
| LineReader.FirstLine | src/nutscan.cc:53-61 | one read takes a prefix of the unread input with no newline before its end, and it is all of the input or ends in a newline |
| LineReader.LinesFrom | src/nutscan.cc:53-64 | the lines that successive reads deliver concatenate back to the input, every line but the last ends in a newline, and the last has none (empty after a final newline) |
| LineReader.ScanLine | src/nutscan.cc:53-58 | the counting loop copies exactly the newline-free characters from the read position, counts them, and stops either before a newline with the stream still good or at the end with it not good |
| LineReader.EndLine | src/nutscan.cc:59-61 | after the counting loop, a newline waiting at the read position is taken, so the text read is exactly the first line of what was unread, newline included when there is one, and the reads left are those after it |
| LineReader.ReadLine | src/nutscan.cc:40-65 | on a stream that is not good it returns -1 and appends nothing; otherwise it appends the next line, newline included, returns its length without the newline, and leaves exactly the reads that follow |
| SnippetParser.Step | src/nutscan.cc:94-118 | one line at most pushes one snippet, only at a tag, and the snippet is the buffer so far; a body line never pushes and clears the pending header |
| SnippetParser.Feed | src/nutscan.cc:88-119 | the main loop only appends to the output vector and keeps the buffer empty while a header is pending |
| SnippetParser.Finish | src/nutscan.cc:121-128 | the end of the parse pushes at most one snippet, and none when it reports a tag without data |
| SnippetParser.Parse | src/nutscan.cc:82-83 | a stream that is not good is left alone: nothing is pushed and no error reported; otherwise existing entries are kept |
| SnippetParser.HandleLine | src/nutscan.cc:100-118 | the branch code for a tag or a body line does what one step of the state machine does |
| SnippetParser.ParseNutScannerOutput | src/nutscan.cc:74-129 | the loop over the stream with the line reader computes exactly the output vector and error flag of the state machine over the stream's lines |
| SnippetSections.Body | src/nutscan.cc:94-98 | a section's body holds body lines only, blank lines left out |
| SnippetSections.Render | src/nutscan.cc:111-113 | every rendered snippet starts with the device's header, and there is at most one per section |
| SnippetSections.FeedFinish | src/nutscan.cc:88-128 | from any consistent state, the parser pushes the open section and then the rendered sections of the lines it is fed |
| SnippetSections.FeedFinishFlag | src/nutscan.cc:109-122 | the tag-without-data error is reported exactly when the last section seen has no body |
| SnippetSections.ParseLinesCharacterised | src/nutscan.cc:74-129 | the parse keeps the existing entries and appends the rendered sections in order; the error is reported iff the last tag has no body |
| SnippetSections.ParseCharacterised | src/nutscan.cc:82-119 | the same for what is left of a stream, read line by line |
| SnippetSections.NoTagNoSnippet | src/nutscan.cc:100-118 | a report without a tag line pushes nothing and reports no error |
| SnippetSections.PreambleDropped | src/nutscan.cc:111-117 | lines before the first tag change nothing, because the buffer fills only through the header write |
| SnippetSections.EmptySectionDropped | src/nutscan.cc:100-122 | a tag followed only by blank lines up to the next tag or the end pushes nothing; at the end it is reported as a tag without data |
| SnippetSections.SnippetCount | src/nutscan.cc:102-105 | the number of snippets pushed is the number of tags followed by at least one body line |
| SnippetSections.SnippetsLabelled | src/nutscan.cc:111-113 | every snippet pushed starts with the device's header, whatever label the tool printed |
| SnippetSections.SectionsInOrder | src/nutscan.cc:100-110 | parsing a report is parsing it up to a tag and then parsing the rest from that tag into the result |
| SnippetSections.BodiesWellFormed | src/nutscan.cc:94-98 | every collected body is made of body lines, each with a newline at most at its end, all but the last ending in one |
| SnippetSections.ReadBack | src/nutscan.cc:53-64 | reading back newline-separated lines gives them back, plus an empty line when the last ends in a newline |
| SnippetSections.SnippetHasOneTag | src/nutscan.cc:107-113 | for a name without a newline, a snippet read back line by line has the device's header as its first line and no other tag line |
| SnippetSections.ReparseLines | src/nutscan.cc:100-118 | for a name without a newline, the lines a snippet is read back as, parsed under the same name, give back exactly that snippet after the existing entries, and no error |
| SnippetSections.ReparseIdempotent | src/nutscan.cc:74-129 | for a name without a newline, every snippet the parser pushes for any report reproduces itself when parsed again under the same name |
| SnippetSections.SnippetsCarryOwnTagOnly | src/nutscan.cc:100-113 | for a name without a newline, no label of the tool survives: every snippet pushed holds the device's header as its only tag line |
| NutScan.RunNutScanner | src/nutscan.cc:134-170 | one run with a 10-second timeout; a non-zero exit returns -1 with the vector unchanged; exit 0 parses standard output into the vector; the status is 0 exactly when the exit code is 0 and the vector is non-empty |
| NutScan.RunOutcome | src/nutscan.cc:155-169 | after a run, the vector is the old entries plus the report's rendered sections (or unchanged on failure); success means exit 0 and either a non-empty vector before or some tag with a body |
| NutScan.PrefilledOutMasksEmptyReport | src/nutscan.cc:164-169 | a non-empty vector makes a run that exits with 0 succeed even when its report yields no snippet |
| NutScan.EmptyReportFails | src/nutscan.cc:158-167 | a run that exits with 0 and prints nothing fails and leaves an empty vector empty |
| NutScan.Community | src/nutscan.cc:180-183 | the community used is the caller's when the caller gives one and `"public"` otherwise, so never empty |
| NutScan.ScanSnmp | src/nutscan.cc:172-207 | one or two runs; the DMF command line runs first exactly when DMF is asked for; the legacy one runs last exactly when DMF is not asked for or failed; a second run is made exactly when DMF is asked for and the DMF run failed; a DMF run that did not fail is returned as it is; the outcome is that of the last run on the caller's vector; a failure leaves the vector unchanged; the command lines are `nut-scanner -q --community <c> -z -s <address>` and the same with `-S` |
| NutScan.ScanXmlHttp | src/nutscan.cc:210-222 | exactly one run, of `nut-scanner -q -M -s <address>`; success exactly when it exits with 0 and the vector is non-empty; after an exit with 0 the vector is the old entries plus the report's snippets, otherwise it is unchanged |
| NutScan.DmfFailureFallsBack | src/nutscan.cc:155-206 | when DMF is asked for and its run fails, by a non-zero exit or by an exit with 0 that leaves the vector empty, and the legacy run reports snippets, the probe succeeds with those snippets after running both command lines |
| Scenarios.OddNameSnippet | src/nutscan.cc:107-113 | under the name `a\nb` the report `[x]\np\n` yields the snippet `[a\nb]\np\n` |
| Scenarios.OddNameBreaksReparse | src/nutscan.cc:100-113 | read back, that snippet's header splits at the name's newline into a tag and a body line, so parsing it again gives a longer snippet and does not reproduce it |
| Scenarios.ScenarioReport | src/nutscan.cc:74-129 | the worked report with labels `[ignored]` and `[ignored2]` yields two snippets under `[ups1]`, and no error |

## Left out

- Logging (`log_debug`, `log_info`, `log_error`) and its message texts are a side channel. The one exception is the "section tag but no other data" error, which is the `tagWithoutData` result of the parser.
- `MlmSubprocess::output` is not part of this model. Spawning the process and enforcing the timeout are foreign I/O. They are the `Executor` parameter, which receives the command line and the timeout of 10 seconds.
- Standard error of a run is carried in `Execution` but only ever logged, so nothing depends on it.
- `getenv("BIOS_NUT_USE_DMF")` reads the process environment. It is the `dmfFromEnv` parameter of `NutScan.ScanSnmp`.
- `CIDRAddress` and its `toString` are not part of this model. The address is the string it turns into.
- `nutscan_test` only prints a line and is left out.
- Streams: the bad bit and iostream exceptions are left out, because a string stream never sets the one or throws the other. Only string streams are modelled, since the parser is only ever given one. `tellp()` on the output buffer is the length of the buffer.
- Characters: a C++ `std::string` is a sequence of bytes, and each Dafny `char` of the model stands for one C++ `char`. The count `s_readline` returns is therefore a count of bytes. The code only compares characters with `'\n'` and `'['`, so nothing depends on how bytes map to characters.
- Integer widths are not modelled. The count in `s_readline` is a `size_t` returned as `ssize_t`, and the model uses an unbounded integer. A line long enough to overflow it cannot fit in memory.
