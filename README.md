# ExamMaker template parser, editor choice and `item add`, in Dafny

ExamMaker authors exam items from a LaTeX template that the user edits in an
external editor. The model covers four parts of it:

- **The template parser** (`parse_template`). It is a line-by-line state machine
  with five states: outside, body, solution, criteria and courses. Marker lines
  such as `% @@BEGIN_BODY` and `% @@END_BODY` switch the state. Every other line
  goes to the buffer of the open section. After the scan come four checks: the
  body must not be blank, a blank solution becomes absent, criteria lines must
  read `\criterion{description}{points}` with integer points, and course lines
  must read `\course{code}{difficulty}{topic}` with a known difficulty.
- **The two line matchers** `_CRITERION_RE` and `_COURSE_RE`. They are written as
  brace-group recognisers, not as general regular expressions.
- **The editor choice** (`find_editor`): the first GUI editor found, then
  `VISUAL`, then `EDITOR`, then `vi`.
- **The `item add` command**: write the template to a temporary file, let the
  user edit it, parse the text, remove the temporary file, and save one item
  whose points are the sum of its criteria's points.

The parts the parser relies on from Python's `str` are written out in
`text.dfy`:
- `strip` and `isspace`, with Python's whitespace set;
- `splitlines`, with Python's line boundaries and `"\r\n"` as a single break;
- `split()`;
- `lower()` on ASCII letters;
- `int()` on an optional sign followed by ASCII digits with single underscores.

The layout of the model:
- Each loop of the source is a method: `ScanSections`, `BuildCriteria`,
  `BuildCourses`, `ParseTemplate`, `FindEditor` and `ItemStore.ItemAdd`.
- Each method is proved equal to a specification function.
- The properties are lemmas about those functions, in `scanner_properties.dfy`,
  `parser_properties.dfy`, `editor_command.dfy` and `cli.dfy`.

Two behaviours of the code are worth knowing:

- **Repeated begin markers.** The parser never clears a buffer
  (`src/exammaker/editor.py:142-145`). A section entered a second time adds
  its lines after those it captured the first time.
  `ScannerProperties.CapturedGrows` states this.
- **Empty descriptions.** The criterion pattern accepts an empty first group.
  So `\criterion{}{3}` parses to a criterion with an empty description.

The record types disagree with the parser on one field.
`src/exammaker/models.py:24` types `Item.courses` as `dict[str, Difficulty]`
and does not define `CourseAssignment`. The parser builds
`CourseAssignment(difficulty, topic)` records (`src/exammaker/editor.py:221`),
and the tests expect such records. The model follows the parser: a
`CourseAssignment` datatype with a difficulty and an optional topic.

## Model

| member | source | states |
|---|---|---|
| Text.Strip | src/exammaker/editor.py:148 | `strip()` leaves a stripped text, empty exactly when the line is all whitespace, and no longer than the line |
| Text.StripAround | src/exammaker/editor.py:148 | stripping whitespace from both sides of an already stripped text gives that text back |
| Text.SplitUnlines | src/exammaker/editor.py:147 | `splitlines` of lines joined with a newline after each returns exactly those lines |
| Text.JoinOfStripped | src/exammaker/editor.py:184 | joining non-empty stripped lines with newlines gives a stripped text, empty only for no lines |
| Text.Words | src/exammaker/editor.py:101 | `split()` gives no words exactly when the text is all whitespace, and every word is a non-empty run with no whitespace |
| Text.WordsOfOne | src/exammaker/editor.py:101 | a single word with whitespace around it splits into exactly that word |
| Text.WordsAfterSpace | src/exammaker/editor.py:101 | whitespace in front of a text does not change its words |
| Text.WordsOfLeadingWord | src/exammaker/editor.py:101 | a word at the front, followed by whitespace or nothing, is the first word and the rest splits on its own |
| Text.WordsCons | src/exammaker/editor.py:101 | a word followed by whitespace splits into that word followed by the words of the rest, so `"nano -w"` gives `nano` then `-w` |
| Text.AsciiLower | src/exammaker/editor.py:214 | lower-casing keeps the length, leaves no upper-case ASCII letter and changes each character only from upper to lower case |
| Text.ParseShowInt | src/exammaker/editor.py:197 | `int()` of the decimal spelling of any integer gives that integer back |
| Text.ParseUnsigned | src/exammaker/editor.py:197 | `int()` of a run of ASCII digits is its decimal value |
| Text.ParseSigned | src/exammaker/editor.py:197 | `int()` of a minus sign followed by digits is the negated decimal value |
| Text.ParseIntSound | src/exammaker/editor.py:196-197 | whatever `int()` accepts is, after stripping, a digit string with an optional `+` or `-` in front, and its value is that of the digits, negated for `-` |
| Text.ParseIntComplete | src/exammaker/editor.py:196-197 | every digit string with single underscores between digits, an optional sign and whitespace around it is accepted with its signed value |
| Text.UnderscoresIgnored | src/exammaker/editor.py:197 | a single underscore between two digit strings keeps the text a digit string and does not change its value |
| Text.ParseIntOfPadded | src/exammaker/editor.py:197 | whitespace around a stripped text does not change what `int()` reads |
| Models.DifficultyFromValue | src/exammaker/models.py:9-12 | a difficulty is built from exactly "easy", "medium" or "hard", and its stored value is the text it was built from |
| Models.DifficultyValueRoundTrip | src/exammaker/models.py:9-12 | the value of each difficulty builds it back, and no two difficulties share a value |
| Models.GeneratedId | src/exammaker/models.py:21 | the generated id is the first 8 hexadecimal digits of the UUID's hex form |
| Models.NewItem | src/exammaker/models.py:20-26 | an item built without an id carries the given fields unchanged and an 8-character id from the UUID |
| Models.NewItemDefaults | src/exammaker/models.py:21-26 | fields left out default to no solution, no courses and no criteria |
| Matchers.MatchCommand | src/exammaker/editor.py:71-74 | a match yields exactly as many groups as the pattern has |
| Matchers.MatchSound | src/exammaker/editor.py:71-74 | a matched line is whitespace, the command name, its brace groups containing no `}`, then whitespace |
| Matchers.MatchExactly | src/exammaker/editor.py:71-74 | a line matches exactly when it is written as such an invocation, so both directions hold |
| Matchers.MatchComplete | src/exammaker/editor.py:71-74 | every invocation with `}`-free groups and whitespace around it matches and gives back its groups |
| Matchers.GroupsSound | src/exammaker/editor.py:71-74 | the brace groups read from a text are `}`-free and reassemble the text they were read from |
| Matchers.GroupsOfBraceGroups | src/exammaker/editor.py:71-74 | reading brace groups from written-out groups gives those groups back |
| Matchers.TwoArgumentCourseRejected | src/exammaker/editor.py:74 | the two-group form `\course{code}{difficulty}` does not match the course pattern |
| Editor.MarkerTargets | src/exammaker/editor.py:150-165 | each begin marker enters its section, each end marker returns to outside, and only the eight marker texts are markers |
| Editor.Captured | src/exammaker/editor.py:141-176 | a buffer holds at most one line per line read, and outside every section nothing is kept |
| Editor.CapturedShape | src/exammaker/editor.py:166-176 | the body buffer holds only non-marker lines, the solution, criteria and courses buffers hold only stripped non-blank non-`%` lines, and nothing is kept outside |
| Editor.ScanSections | src/exammaker/editor.py:141-176 | the scanning loop fills the four buffers exactly as the line-by-line specification does |
| Editor.ParseCriterionLine | src/exammaker/editor.py:187-202 | a line is refused as itself exactly when it is no two-group invocation; otherwise it is refused only for its points, reported stripped; an accepted description is stripped (ParserProperties.CriterionLineSound, CriterionLineOfGroups and CriterionPointsSpelling pin down the values) |
| Editor.CollectCriteriaOk | src/exammaker/editor.py:186-202 | the criteria are accepted exactly when every line is, one criterion per line, in order |
| Editor.CollectCriteriaError | src/exammaker/editor.py:186-202 | a refused criteria list reports the error of a line all of whose predecessors were accepted |
| Editor.CriteriaErrorSticks | src/exammaker/editor.py:186-202 | once a line is refused, no later line changes the outcome (fail fast) |
| Editor.CriteriaErrorKinds | src/exammaker/editor.py:189-201 | criteria fail only with a bad line or bad points |
| Editor.BuildCriteria | src/exammaker/editor.py:186-202 | the criteria loop gives the specification's result, error included |
| Editor.CourseOf | src/exammaker/editor.py:213-221 | a course is accepted exactly for easy, medium or hard, keeping its code and that difficulty, with an empty topic stored as absent; otherwise the difficulty and the code are reported |
| Editor.ParseCourseLine | src/exammaker/editor.py:206-221 | a line is refused as itself exactly when it is no three-group invocation, otherwise only for an invalid difficulty; an accepted code is stripped and a topic, when present, is stripped and not empty |
| Editor.CollectCoursesOk | src/exammaker/editor.py:204-221 | the courses are accepted exactly when every line is |
| Editor.CollectCoursesError | src/exammaker/editor.py:204-221 | a refused course list reports the error of a line all of whose predecessors were accepted |
| Editor.CoursesErrorSticks | src/exammaker/editor.py:204-221 | once a course line is refused, no later line changes the outcome |
| Editor.CoursesErrorKinds | src/exammaker/editor.py:208-220 | courses fail only with a bad line or an invalid difficulty |
| Editor.BuildCourses | src/exammaker/editor.py:204-221 | the courses loop gives the specification's result, error included |
| Editor.FromSections | src/exammaker/editor.py:178-223 | the body is refused exactly when it joins to whitespace; on success it is the stripped join, non-empty; success means the body, criteria and courses are all accepted |
| Editor.SolutionText | src/exammaker/editor.py:184 | the solution is absent exactly when its lines join to whitespace, and otherwise is stripped and not empty |
| Editor.TemplateSpec | src/exammaker/editor.py:135-223 | an accepted template has a non-empty stripped body and, when it has a solution, a non-empty stripped one |
| Editor.ParseTemplate | src/exammaker/editor.py:135-223 | the parser as written gives the specification's result for every text |
| ScannerProperties.ClassifyMarkers | src/exammaker/editor.py:148-165 | a marker with any whitespace around it is read as a marker: begin enters its section, end leaves to outside |
| ScannerProperties.MarkerLine | src/exammaker/editor.py:150-165 | a marker line sets the state to its target whatever the current state and adds nothing to any buffer |
| ScannerProperties.TextLine | src/exammaker/editor.py:166-176 | a text line keeps the state and adds to the open section's buffer only |
| ScannerProperties.InsideSection | src/exammaker/editor.py:166-176 | a run of text lines adds what is kept of them to the open section's buffer only and keeps the state |
| ScannerProperties.BodyKeptVerbatim | src/exammaker/editor.py:166-167 | body lines are kept unchanged, blank and `%` lines included |
| ScannerProperties.KeptOutsideBody | src/exammaker/editor.py:168-176 | outside the body a line is kept, stripped, exactly when its stripped form is neither blank nor a `%` comment |
| ScannerProperties.ContentKept | src/exammaker/editor.py:168-176 | stripped content lines are kept unchanged, all of them, in order |
| ScannerProperties.CommentsDropped | src/exammaker/editor.py:168-176 | blank and `%` comment lines are dropped from the solution, criteria and courses sections |
| ScannerProperties.CapturedGrows | src/exammaker/editor.py:142-145 | buffers are never cleared: what a buffer holds is a prefix of what it holds after more lines |
| ScannerProperties.SectionBlock | src/exammaker/editor.py:150-176 | a section from its begin marker to an end marker adds its kept lines to its own buffer only and leaves the scanner outside |
| ScannerProperties.OutsideDropped | src/exammaker/editor.py:147-176 | text read outside every section is dropped |
| ScannerProperties.ClassifyAllAppend | src/exammaker/editor.py:147-148 | reading two runs of lines one after the other reads their concatenation |
| ParserProperties.CriterionLineRejected | src/exammaker/editor.py:187-193 | a criteria line is refused as a bad line, carrying the line itself, exactly when it is no two-group invocation |
| ParserProperties.CriterionLineSound | src/exammaker/editor.py:187-202 | an accepted criterion comes from a two-group invocation: its description is the stripped first group and its points are `int()` of the stripped second group |
| ParserProperties.CriterionLineRoundTrip | src/exammaker/editor.py:186-202 | writing `\criterion{d}{n}` for any stripped description and any integer reads back that criterion |
| ParserProperties.CriterionWhitespaceStripped | src/exammaker/editor.py:194-197 | whitespace inside the braces is stripped from the description and the points |
| ParserProperties.CriterionLineOfGroups | src/exammaker/editor.py:187-201 | every two-group invocation, with whitespace around it, is accepted with the stripped description and the points `int()` gives for its stripped second group, and refused with that stripped text exactly when `int()` refuses it |
| ParserProperties.CriterionPointsSpelling | src/exammaker/editor.py:194-201 | points in any spelling `int()` accepts (a sign, leading zeros, single underscores between digits, whitespace inside the braces) are read with their value, so `+5`, `007` and `1_000` give 5, 7 and 1000 |
| ParserProperties.CriterionPointsRejected | src/exammaker/editor.py:195-201 | a matching line whose points `int()` refuses is refused with the stripped points text |
| ParserProperties.CriteriaAllOk | src/exammaker/editor.py:186-202 | the criteria are accepted exactly when every line is, with the criterion of each line at its position |
| ParserProperties.CriteriaFirstError | src/exammaker/editor.py:186-202 | a criteria error is that of the first refused line, in source order |
| ParserProperties.CourseLineRejected | src/exammaker/editor.py:206-212 | a course line is refused as a bad line, carrying the line itself, exactly when it is no three-group invocation |
| ParserProperties.CourseLineOfGroups | src/exammaker/editor.py:213-221 | a three-group line reads its code, lower-cased difficulty and topic from the stripped groups |
| ParserProperties.CourseOfValue | src/exammaker/editor.py:215-221 | a known difficulty gives an assignment with that difficulty, and an empty topic is stored as absent |
| ParserProperties.CourseLineRoundTrip | src/exammaker/editor.py:204-221 | writing `\course{code}{difficulty}{topic}`, with the difficulty in any letter case, reads back that code and assignment |
| ParserProperties.CourseDifficultyRejected | src/exammaker/editor.py:216-220 | a difficulty other than easy, medium or hard is refused, naming the value and the code |
| ParserProperties.CourseTwoArgumentLine | src/exammaker/editor.py:207-212 | the two-argument course form is refused as a bad course line |
| ParserProperties.CoursesAllOk | src/exammaker/editor.py:204-221 | the courses are accepted exactly when every line is |
| ParserProperties.CoursesFirstError | src/exammaker/editor.py:204-221 | a courses error is that of the first refused line, in source order |
| ParserProperties.CollectCoursesLastWins | src/exammaker/editor.py:221 | the course map has a key for every line's code, no other keys, and for each code the assignment of its last line |
| ParserProperties.CoursesKeys | src/exammaker/editor.py:204-221 | the codes of the course map are exactly the codes of the course lines |
| ParserProperties.CoursesLastWins | src/exammaker/editor.py:221 | a code written on several lines maps to the assignment of the last of them |
| ParserProperties.DuplicateCodeLastWins | src/exammaker/editor.py:221 | two lines with the same code give a map holding only the second |
| ParserProperties.ErrorOrder | src/exammaker/editor.py:178-221 | an empty body is reported before any criteria error, and a criteria error before any course error |
| ParserProperties.SectionsAccepted | src/exammaker/editor.py:178-223 | an accepted template carries the stripped body, the parsed criteria and courses and the solution text |
| ParserProperties.SolutionOfKeptLines | src/exammaker/editor.py:184 | the solution is absent exactly when no solution line is kept, and otherwise is the newline join of the kept lines |
| EditorCommand.FirstGui | src/exammaker/editor.py:95-97 | no GUI editor is chosen exactly when none is found; otherwise the chosen one is found and every earlier one is not |
| EditorCommand.FirstVariable | src/exammaker/editor.py:99-104 | no variable gives a command exactly when neither does, and a command given starts with a program that is found |
| EditorCommand.EditorChoice | src/exammaker/editor.py:89-112 | whatever command is chosen, its program is one that is found |
| EditorCommand.FindEditor | src/exammaker/editor.py:89-112 | the search with early returns gives the command of the preference order |
| EditorCommand.NoEditorFoundExactly | src/exammaker/editor.py:95-112 | the search fails exactly when no GUI editor, no usable `VISUAL` or `EDITOR`, and no `vi` is found |
| EditorCommand.GuiEditorFirst | src/exammaker/editor.py:95-97 | the first GUI editor found wins whatever the environment, with `--new-window --wait` |
| EditorCommand.VisualBeforeEditor | src/exammaker/editor.py:99-104 | with no GUI editor, a usable `VISUAL` is used, split on whitespace |
| EditorCommand.EditorAfterVisual | src/exammaker/editor.py:99-104 | with no GUI editor and an unusable `VISUAL`, a usable `EDITOR` is used, split on whitespace |
| EditorCommand.ViLast | src/exammaker/editor.py:106-107 | with nothing else usable, `vi` is chosen when it is found |
| EditorCommand.OneWordVariable | src/exammaker/editor.py:100-104 | a variable holding one program name, with whitespace around it, names that program alone |
| EditorCommand.ProgramWithArguments | src/exammaker/editor.py:100-104 | a variable holding a program and its arguments, with whitespace around them, gives the program followed by the words of the arguments |
| Cli.TotalPoints | src/exammaker/cli.py:49 | with no negative points the total is not negative; TotalPointsAppend, TotalPointsSmall and TotalPointsBound relate it to the sum |
| Cli.TotalPointsAppend | src/exammaker/cli.py:49 | the points total of two lists of criteria one after the other is the sum of their totals |
| Cli.TotalPointsSmall | src/exammaker/cli.py:49 | no criteria give 0 points and one criterion gives its own points |
| Cli.TotalPointsBound | src/exammaker/cli.py:49 | with no negative points, the total is at least the points of any one criterion |
| Cli.ItemFileNameInjective | src/exammaker/storage.py:12 | two different ids never share a file name |
| Cli.AddOutcome | src/exammaker/cli.py:31-58 | no editor is reported exactly when none is found, an editor failure exactly when one is found and fails; a saved item has the first 8 hex digits of the UUID as its id and the sum of its criteria's points |
| Cli.ItemStore.ItemAdd | src/exammaker/cli.py:31-58 | the temporary file is removed on every path; on success exactly the new item is saved under its file name and nothing else changes; on failure the error is reported and the items directory is unchanged |
| Cli.SavedExactly | src/exammaker/cli.py:38-47 | an item is saved exactly when an editor is found, it exits normally and the text it leaves parses |
| Cli.SavedItemFields | src/exammaker/cli.py:49-56 | the saved item carries the parsed body, criteria, courses and solution unchanged, an 8-character id and the sum of its criteria's points |
| Cli.ParseErrorSurfaced | src/exammaker/cli.py:42-45 | a refused template is reported with the parser's own error |
| Cli.NoCriteriaNoPoints | src/exammaker/cli.py:49 | a template without criteria gives an item worth 0 points |

## Left out

- `open_editor` (`src/exammaker/editor.py:115-124`) runs a process. The model
  does not run one. The editor session is a parameter of `Cli.ItemStore.ItemAdd`:
  the text left in the file, or `None` when the process exits with an error or
  cannot be started. Only the no-editor failure of `find_editor` is modelled
  as such.
- The LaTeX text of `ITEM_TEMPLATE` (`src/exammaker/editor.py:16-66`) is a
  parameter of `Cli.ItemStore.ItemAdd`.
- The storage module's YAML writing, `load_item` and `load_all_items` are
  not modelled. Nor is creating the items directory.
- The items directory is a map from file name to item rather than a sequence of
  saves. `save_item` writes `<id>.yaml`, so a second item with the same id
  replaces the first. `Cli.ItemStore.ItemAdd` adds one file exactly when the
  name is new.
- The click command wiring is not modelled. The `tempfile` naming becomes the
  `tmpPath` parameter, and the `Saved:` echo becomes the returned file name.
- The UUID randomness is the `uuidHex` parameter: 32 lower-case hexadecimal
  digits.
- `lower()` is modelled on ASCII letters only.
- `int()` is modelled on ASCII digits only. Python also accepts other Unicode
  decimal digits.
- Error messages are not modelled. Each error carries the line or value it
  names, as the messages do. The bad-course message at
  `src/exammaker/editor.py:211` still shows the two-argument form; only its
  wording does, while the matcher demands three groups.
- pydantic's validation of the records is not modelled. The fields are plain
  datatype fields.
- Text.ParseInt: the limit of 4300 digits that `int()` enforces from
  Python 3.11 on (and from 3.10.7) is not modelled. A longer points value
  is accepted by the model, while the source reports it as bad points.
- The course map is a Dafny `map`, which has no order. A Python `dict` keeps
  insertion order: a repeated code keeps its first position and takes the
  last value, and the saved YAML lists the courses in that order. The model
  keeps the keys and the last values (`ParserProperties.CollectCoursesLastWins`)
  but not the order.
- Cli.ItemStore.ItemAdd: process failures of the editor are one error,
  `EditorFailed`. The source tells a non-zero exit code from a missing
  executable only in its message.
