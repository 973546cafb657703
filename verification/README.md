# Agent output classifier and map definition messages

This project models two parts of a backend that sits between a Python data-analysis agent
and a web front end.

The first part is the output parser. It takes one agent response and turns it into the
ordered list of typed items the front end renders. An agent response carries:

- the final answer text;
- an error flag;
- the raw console output;
- the executed code steps;
- the log entries.

The parser emits these items:

- code items: from the steps, from markdown fences and "Code:" labels in the raw output,
  from code-like log lines, and from fences in the answer;
- the answer as a text item, or as an error item when the flag is set;
- image items: for image files the raw output names, and for base64 data URIs in it;
- one room-highlight item: lists the floor-plan rooms that the answer names;
- arrow items: for `ARROW_COMMAND: room=…, direction=…` markers.

The second part is the map manager. It does four things:

- it loads a legacy single-floor rectangles document into a map definition;
- it finds the arrow bitmaps that are present;
- it turns the definition into the `map_definition` message, through a recursive
  dataclass-to-dictionary conversion;
- it builds `map` display commands.

Modules:

- `Basics` (basics.dfy): `Option`, `Result`, and the sequence predicates used throughout:
  no duplicates, subsequence, and an order-preserving filter.
- `Strings` (strings.dfy): the parts of Python's `str` the parser relies on. These are
  `isspace`, `strip`, ASCII `lower`, literal search, and `str(n)` for the default step
  label.
- `Scanner` (scanner.dfy): the six regular expressions of the parser. Each is a
  match-at-position function, and `FindAll` is `re.findall`'s leftmost, non-overlapping
  scan over them.
- `OutputParser` (output_parser.dfy): the extractors, `Parse`, and the properties of the
  item list.
- `MapManager` (map_manager.dfy): a JSON value type with Python-dict lookup semantics, the
  dataclasses, the legacy loader, the bitmap scan, `_dataclass_to_dict` and the messages.

Things outside the program are parameters:

- The file system is an `ImageStore`, which says whether a path exists and what base64
  text reading it gives (`None` when reading fails).
- `LoadLegacyData` receives from its caller the parsed contents of the rectangles file,
  the file that `load_legacy_data` opens at `data_dir / rectangles_json`
  (backend/map_manager.py:101-103). It also receives a `BitmapDir` standing for the
  directory `data_dir.parent / 'bitmaps'` that `_scan_bitmaps` looks in
  (backend/map_manager.py:151-153). Neither is derived from the manager's `dataDir`.
- The clock is the `utcNowIso` string that `CreateMapCommand` receives.

Details of `parse` that the model keeps:

- A code step's label is stored under the key `step` (backend/output_parser.py:225).
- The text or error item comes right after all code items. The images, the highlight and
  the arrows follow it (backend/output_parser.py:42-88).
- `parse` emits only code, text, error, image, `highlight_room` and arrow items. The map
  data extraction is commented out (backend/output_parser.py:71-74), and arrows come only
  from `ARROW_COMMAND` markers (backend/output_parser.py:356-366).

## Model

| member | source | states |
|---|---|---|
| OutputParser.ImageExtensionsMatchPattern | backend/output_parser.py:25 | The parser's extension table is the image-path pattern's extension alternatives, each with its leading dot, in the same order. |
| OutputParser.DefaultStepLabelNumbersFromOne | backend/output_parser.py:225 | A step without a label is called `Step ` followed by decimal digits that read back as its 1-based position. |
| OutputParser.StepItems | backend/output_parser.py:220-227 | There is one python code item per code step, in step order. Each holds the step's code, or "" when it has none. Each is labelled by its own label or its default label. |
| OutputParser.FencedItems | backend/output_parser.py:236-242 | There is one item per fence match whose body is not blank, in match order, and no other. Each is that match's item: the stripped body, which is non-empty, the match's language or `python`, from the output text. |
| OutputParser.FencedItemsSound | backend/output_parser.py:236-242 | Every fenced code item is the item of some fence match whose body is not blank. |
| OutputParser.FencedItemsComplete | backend/output_parser.py:236-242 | Every fence match with a non-blank body contributes its stripped body. |
| OutputParser.KeptBodies | backend/output_parser.py:249-250 | There is one kept body per body that is not blank, in order, and no other. Each is that body stripped, so it is non-empty. Every non-blank body appears in stripped form. |
| OutputParser.KeptBodiesSound | backend/output_parser.py:249-250 | Each kept body is the stripped form of a body that is not blank. |
| OutputParser.CodeLikeLines | backend/output_parser.py:270-276 | There is one line per string log entry containing `def `, `import `, `class ` or `=`, in log order, verbatim, and no other. Entries of other kinds and other strings are skipped. |
| OutputParser.NewContents | backend/output_parser.py:249-255 | The added candidates are a subsequence of the candidates. They are distinct and none was already seen. Every candidate ends up seen or added. |
| OutputParser.NewContentsInFirstOccurrenceOrder | backend/output_parser.py:249-255 | The added candidates keep the order in which each first occurs among the candidates. |
| OutputParser.AddNew | backend/output_parser.py:249-255 | Appending only keeps what was there as a prefix. Appended items are python code items with the given origin. Afterwards every candidate is collected. |
| OutputParser.AddNewIsLoop | backend/output_parser.py:249-255 | Appending the new contents equals the loop that takes the candidates one at a time. The loop appends a python item for each candidate that no item collected so far has, including items it appended earlier. |
| OutputParser.AddNewAddsOnlyNew | backend/output_parser.py:261-267 | The appended items are candidates that had not been collected before. No two of them have the same content, and they come in the order in which the candidates first occur. |
| OutputParser.WithFences | backend/output_parser.py:233-242 | The earlier items stay a prefix. They are followed by exactly the items of the fenced blocks, all of them, in match order, with no duplicate check. |
| OutputParser.WithBodies | backend/output_parser.py:244-267 | The earlier items stay a prefix. Every labelled and every language-less body is collected. Each appended item is a python item of the output text holding one of those bodies, and differs from every item before it. |
| OutputParser.WithBodiesLayout | backend/output_parser.py:244-267 | The appended items are first the new labelled bodies, then the new language-less bodies, each group in first-occurrence order. All labelled bodies are collected before the first language-less body is added. |
| OutputParser.OutputCode | backend/output_parser.py:229-267 | Empty raw output adds nothing. Otherwise the fenced blocks are appended right after the earlier items. Then come only new labelled or language-less bodies, each differing from every item before it, and every body is collected. |
| OutputParser.OutputCodeLayout | backend/output_parser.py:229-267 | With raw output, the appended items are the fenced blocks, then the new labelled bodies, then the new language-less bodies, each group in first-occurrence order. Without raw output nothing is appended. |
| OutputParser.OutputCodeCollectsFences | backend/output_parser.py:233-242 | Every non-blank fenced body of non-empty raw output is collected in stripped form. |
| OutputParser.OutputCodeCollectsBodies | backend/output_parser.py:246-267 | Every non-blank labelled or plain-fence body of non-empty raw output is collected in stripped form. |
| OutputParser.ExtractCodeBlocks | backend/output_parser.py:207-286 | `_extract_code_blocks`: the step items come first. Every later item comes from the raw output or from the logs. `ExtractCodeBlocksLayout` and `ExtractCodeBlocksCollects` fix which items those are and in what order. |
| OutputParser.ExtractCodeBlocksCollects | backend/output_parser.py:217-286 | The code items start with the step items. They collect every non-blank fenced, labelled and language-less body of the raw output, stripped, and every code-like string log entry. Without raw output, no item comes from the output text. |
| OutputParser.ExtractCodeBlocksLayout | backend/output_parser.py:217-286 | The code items are the step items, the fenced blocks, the new labelled bodies, the new language-less bodies and the new code-like log lines, in that order. Each later group is in first-occurrence order, and each of its items differs from every item before it. |
| OutputParser.ExtractCodeFromText | backend/output_parser.py:298-312 | There is one item per fence of the answer whose body is not blank, in match order, and no other. Each is that fence's item: the stripped, non-empty body from the output text. |
| OutputParser.FileNameStart | backend/output_parser.py:120 | For a path ending in a dot and letters, the file name starts at or before the dot. It starts exactly at the dot when a slash precedes the dot. |
| OutputParser.SuffixFormat | backend/output_parser.py:120 | `path.suffix[1:]`: a non-empty format is the tail of the path after a dot and contains no dot or slash. `TokenFormat` says which tail it is for a matched path. |
| OutputParser.TokenFormat | backend/output_parser.py:120 | The format of a matched image path is its extension as written. It is empty when the file name begins with the dot. |
| OutputParser.TokenFormatOk | backend/output_parser.py:120 | A path image's format is empty or one of the image extensions, up to case. |
| OutputParser.ReadableTokens | backend/output_parser.py:109-113 | The kept paths are exactly the matched paths that exist and can be read, in match order. |
| OutputParser.PathImages | backend/output_parser.py:109-124 | There is one image per readable matched path. It holds the file's base64 text, the path and the path's suffix as the format. |
| OutputParser.ReadablePathsAllShown | backend/output_parser.py:109-122 | Every matched path that exists and can be read is shown as an image with that path. |
| OutputParser.DataUriImages | backend/output_parser.py:127-135 | There is one pathless image per data URI, in match order, with the URI's payload and format. |
| OutputParser.ImagePathHitsAreTokens | backend/output_parser.py:106-107 | Every image-path match ends in a dot and one of the image extension words, written in ASCII letters. |
| OutputParser.DataUriHitsWellFormed | backend/output_parser.py:127-128 | Every data-URI match has a non-empty format without `;` and a non-empty base64 payload. |
| OutputParser.DataUriImagesShape | backend/output_parser.py:130-135 | The images of well-formed data URIs have no path, a base64 payload and a `;`-free format. |
| OutputParser.ExtractImages | backend/output_parser.py:103-137 | The path images come first. They are exactly the images of the matched paths that exist and can be read, in match order. Then come the data-URI images, one per data URI in match order. Every path match is an image token. |
| OutputParser.SearchWord | backend/output_parser.py:333-334 | The search succeeds exactly when the word occurs in the text with a word boundary on each side. |
| OutputParser.RoomsMentioned | backend/output_parser.py:327-337 | The result is exactly the rooms whose lower-cased name the lowered text mentions as a whole word. They keep vocabulary order and appear once each. |
| OutputParser.RoomNamesDistinct | backend/output_parser.py:28 | The room vocabulary has no duplicates and no empty name. |
| OutputParser.ExtractRoomHighlights | backend/output_parser.py:314-337 | An empty answer highlights nothing. Otherwise exactly the vocabulary rooms the answer names as whole words, ignoring case, are highlighted: in vocabulary order, each once. |
| OutputParser.HighlightItems | backend/output_parser.py:76-84 | There is at most one highlight item, and it has a non-empty room list. There is none exactly when no room is mentioned. |
| OutputParser.ParseDirection | backend/output_parser.py:356-364 | A direction word in any case reads as the direction whose name is the lower-cased word. |
| OutputParser.ArrowHitsWellFormed | backend/output_parser.py:356-357 | Every arrow-marker match has a comma-free room and one of the four direction words, up to case. |
| OutputParser.ExtractArrows | backend/output_parser.py:350-366 | There is one arrow per marker match in raw output, newline, answer, in match order. Its room is the stripped room text, with no comma, and its direction is the lower-cased word. |
| OutputParser.ArrowsFollowMarkers | backend/output_parser.py:353-357 | Marker matches are ordered and disjoint. No position where a marker matches is skipped. |
| OutputParser.AllCodeItems | backend/output_parser.py:42-53 | All code items come first: the response's own, then, only for a non-empty answer, exactly the answer's fenced blocks as `ExtractCodeFromText` finds them. These are stripped, non-empty items from the output text. |
| OutputParser.MessageItems | backend/output_parser.py:55-64 | The text or error item on its own. There is at most one item, and it satisfies the message rule: an error with the answer exactly when the flag is set, otherwise a text item exactly when the answer is non-empty. |
| OutputParser.MessageRuleOfGroups | backend/output_parser.py:55-64 | Whatever the code, image, highlight and arrow items are, placing the message items between them satisfies the message rule. |
| OutputParser.Parse | backend/output_parser.py:30-90 | `parse` emits code, then the text or error item, then images, then the highlight, then arrows: no item of a later kind comes before one of an earlier kind. Its code items are exactly `AllCodeItems`, so the code blocks of the response come before the answer's fenced blocks. Its images are exactly `ExtractImages`, its highlight items `HighlightItems`, its arrows `ExtractArrows`, and its text or error items `MessageItems`. The items also satisfy the message rule: an error item with the answer exactly when the flag is set, otherwise a text item exactly when the answer is non-empty, and never more than one. With `TierOrderedIsItsGroups`, these facts determine the result. |
| OutputParser.TierOrderedIsItsGroups | backend/output_parser.py:40-90 | A list ordered by kind is its code items, then its text and error items, images, highlights and arrows, each group in its original order. So the per-kind contents of `parse`'s result determine the result. |
| Scanner.FencedBlockAt | backend/output_parser.py:233 | A fence match starts at the position and has a language made only of word characters. |
| Scanner.FencedBlockShape | backend/output_parser.py:233-234 | A fence match is three backticks, its language word, a newline, its body and three backticks. The closing backticks are the first after the newline. |
| Scanner.FencedBlockFound | backend/output_parser.py:233-234 | Conversely, backticks, a word, a newline and a body up to the first closing backticks make exactly that match. |
| Scanner.PlainFenceAt | backend/output_parser.py:258 | A language-less fence match starts at the position and captures a single group. |
| Scanner.PlainFenceShape | backend/output_parser.py:258-259 | A language-less fence match is three backticks, a newline, its body and three backticks. The closing backticks are the first after the newline. |
| Scanner.PlainFenceFound | backend/output_parser.py:258-259 | Conversely, backticks, a newline and a body up to the first closing backticks make exactly that match. |
| Scanner.LabelledCodeAt | backend/output_parser.py:246 | A labelled-code match starts at the position and captures the indented run as its single group. |
| Scanner.BlockNewlineLatest | backend/output_parser.py:246 | The newline the label's whitespace settles on is the last one in that whitespace that an indented line follows. |
| Scanner.LabelledCodeShape | backend/output_parser.py:246-247 | A labelled-code match is one of the three labels, whitespace ending on a newline, and the longest run of indented lines after it. The newline is the last one in that whitespace that an indented line follows. |
| Scanner.LabelledCodeFound | backend/output_parser.py:246-247 | Conversely, a label, whitespace and that newline make the match that captures the run of indented lines after it. |
| Scanner.ImagePathAt | backend/output_parser.py:106 | An image-path match starts at the position and its group is the whole match. That group is a stem of at least one character, a dot and the captured word. |
| Scanner.ImagePathWord | backend/output_parser.py:106-107 | The word an image-path match captures after its dot is one of the image extensions, in any case, written in ASCII letters. |
| Scanner.ExtensionDotLatest | backend/output_parser.py:106 | The dot the greedy path pattern settles on is the last one in the non-blank run that an extension word follows. No dot at all is chosen only when no dot after the first character has one. |
| Scanner.ImagePathShape | backend/output_parser.py:106-107 | An image-path match lies in the non-blank run from the position. It ends with the last dot of that run that an extension word follows, and with the first extension word, in list order, written there. |
| Scanner.ImagePathFound | backend/output_parser.py:106-107 | Conversely, in a non-blank run, the last dot after the first character that an extension word follows makes the match. |
| Scanner.DataUriAt | backend/output_parser.py:127 | A data-URI match has a non-empty `;`-free format and a non-empty run of base64 characters. |
| Scanner.DataUriShape | backend/output_parser.py:127-128 | A data-URI match spells the prefix, its format up to the first semicolon, `;base64,` and the longest run of base64 characters. |
| Scanner.DataUriFound | backend/output_parser.py:127-128 | Conversely, that spelling with a non-empty format and payload makes exactly the match of that format and payload. |
| Scanner.ArrowCommandAt | backend/output_parser.py:356 | An arrow-marker match starts at the position and its room group is non-empty and has no comma. |
| Scanner.ArrowCommandWord | backend/output_parser.py:356-357 | The direction group of an arrow-marker match is one of the four direction words, up to case. |
| Scanner.ArrowCommandShape | backend/output_parser.py:356-357 | An arrow-marker match spells, ignoring case, `arrow_command:`, whitespace, `room=`, the room up to the first comma, the comma, whitespace, `direction=` and the captured word. |
| Scanner.ArrowCommandFound | backend/output_parser.py:356-357 | Conversely, that spelling with a comma-free room and a direction word makes exactly the match of that room and word. |
| Scanner.ScanMissesNothing | backend/output_parser.py:234 | A left-to-right non-overlapping scan covers every position where the matcher matches. |
| Scanner.FindAll | backend/output_parser.py:234 | `re.findall` reports only genuine matches, each at its own position, non-overlapping and in increasing order. |
| Scanner.FindAllMissesNothing | backend/output_parser.py:234 | Every position where the pattern matches lies inside a reported match. |
| Scanner.FindAllInOrder | backend/output_parser.py:234 | Every reported match ends before any later one starts. |
| Basics.FilterCounts | backend/output_parser.py:236-237 | Keeping the blocks whose body is not blank keeps each such block as often as it occurs, and no other. |
| Strings.Strip | backend/output_parser.py:237-240 | `str.strip` removes exactly the leading and trailing whitespace. The result is empty exactly when the input is blank. |
| Strings.DecimalRoundTrip | backend/output_parser.py:225 | The decimal rendering of a number reads back as that number. |
| MapManager.NewManager | backend/map_manager.py:82-84 | A new manager remembers its data directory and has no definition and no current floor. |
| MapManager.NewManagerHasNoDefinition | backend/map_manager.py:179-180 | Asking a new manager for its definition message fails with "Map definition not loaded". |
| MapManager.PointOf | backend/map_manager.py:108-109 | `Point(**d)` succeeds exactly when `d` is a dict with exactly the keys px, py, x and y. |
| MapManager.CoordinateOf | backend/map_manager.py:117-118 | `Coordinate(**d)` succeeds exactly when `d` is a dict with exactly the keys x and y. |
| MapManager.RectangleEntries | backend/map_manager.py:122 | Iterating a list gives its elements. An empty dict or string gives none. Anything else is an error. |
| MapManager.ReadAll | backend/map_manager.py:114-123 | The comprehension succeeds exactly when every element converts, and keeps them in order. |
| MapManager.LegacyContents | backend/map_manager.py:105-123 | Reading a legacy document succeeds exactly when its coordinate system and every rectangle entry can be read. The coordinate system is then the one read from `coordinateSystem`, and the rectangles are those read from the entries of `rectangles`, one per entry and in order. |
| MapManager.LegacyRoundTrip | backend/map_manager.py:105-123 | A legacy document written from a coordinate system and rectangles is read back as exactly those. |
| MapManager.LoadLegacyData | backend/map_manager.py:100-141 | The load succeeds exactly when the document is well-formed. It then stores a one-floor definition with the given floor fields, the document's contents and the bitmaps found, and changes nothing else. |
| MapManager.LoadLegacyDocument | backend/map_manager.py:86-141 | Loading a well-formed document with the default floor id and name yields floor "1F" named "1階" and leaves no current floor. |
| MapManager.ScanBitmaps | backend/map_manager.py:150-170 | Without the directory there are none. Otherwise exactly the arrow bitmaps whose file is present are listed, in table order. |
| MapManager.ToDict | backend/map_manager.py:197-206 | A dataclass becomes a dict with its field names in declaration order. A list becomes a list of the same length. Anything else is returned unchanged. The helpers `ToDictFields` and `ToDictItems` add that each field value and each list item is converted in place. |
| MapManager.DefinitionDictRoundTrip | backend/map_manager.py:197-206 | The dictionary of a map definition reads back as that definition. |
| MapManager.FloorDictRoundTrip | backend/map_manager.py:47-54 | The dictionary of a floor reads back as that floor. |
| MapManager.RectangleDictRoundTrip | backend/map_manager.py:37-44 | The dictionary of a rectangle reads back as that rectangle. |
| MapManager.CoordinateSystemDictRoundTrip | backend/map_manager.py:28-34 | The dictionary of a coordinate system reads back as that coordinate system. |
| MapManager.BitmapDictRoundTrip | backend/map_manager.py:57-62 | The dictionary of a bitmap reads back as that bitmap. |
| MapManager.GetMapDefinitionMessage | backend/map_manager.py:179-185 | The message fails exactly when no definition is loaded. Otherwise it has type `map_definition`, and its content reads back as the loaded definition. |
| MapManager.LoadThenMessage | backend/map_manager.py:136-141 | After a successful load, the definition message carries exactly the loaded definition. |
| MapManager.EnvelopeRoundTrip | backend/map_manager.py:182-185 | A message's type and content read back unchanged. |
| MapManager.CreateMapCommand | backend/map_manager.py:224-235 | The command is a message of type `map` whose content has exactly the keys `floorId`, `timestamp`, `rectangles` and `overlays`. |
| MapManager.MapCommandRoundTrip | backend/map_manager.py:224-235 | A `map` command passes the floor, rectangles and overlays through unchanged. It uses a supplied timestamp verbatim and otherwise the current UTC time with `Z`. |

## Left out

- `_extract_map_data` (backend/output_parser.py:139-205) is not modelled. `parse` does not call it; the call is commented out.
- The response's `error` entry is modelled as a flag: the truthiness Python tests. Its value is never shown; the error item carries the answer text.
- `AgentResponse` fields that the source reads with `get` and a default are already defaulted in the model. A missing `text` or `raw_output` is `""`, missing `code_steps` or `logs` is `[]`, and a step's missing `code` or `step` is `None`. A present value of the wrong type (for example a `None` answer) is outside the model.
- File reading and base64 encoding are not modelled. `ImageStore.readBase64` stands for them, and a failed read is `None`. The error message printed for a failed read is omitted.
- `str(path)` is not modelled: the path of an image item is the matched text. `Path` normalisation (`./a.png` becoming `a.png`, doubled slashes) is outside the model.
- `\w`, `\b`, `re.IGNORECASE` and `str.lower` are modelled on ASCII letters and digits only. Python applies them to all Unicode letters and digits.
- `ExtractImages` does not check that a path image's content is valid base64. It only says that the content is what the store gave for that path, because the encoding is an external call.
- Opening and decoding the rectangles file is not modelled. `LoadLegacyData` takes the parsed document, and the path it is read from is not modelled. Duplicate keys keep their last value, as `json.load` does.
- Every exception `load_legacy_data` can raise becomes the single `MalformedLegacyData`. These are a missing key, a wrong key set for `Point`/`Coordinate`, a non-dict where a dict is indexed, and a non-iterable rectangle list. The message and exception type are not modelled.
- Numbers in the legacy document are kept as JSON values, not floats. The dataclasses do not check field types, and nothing is computed from these numbers.
- `datetime.utcnow().isoformat()` is the `utcNowIso` parameter of `CreateMapCommand`.
- The rest of `MapManager` is outside this model: multi-floor loading, floor selection, rectangle lookup, saving and coordinate transforms. Also outside are the web server that calls these functions (backend/main.py), the agent wrapper (backend/agent_wrapper.py) and the agent itself.
- `ExtractRoomHighlights`: `\b` is modelled with ASCII word characters. Python also counts kana as word characters, so for `Kitchenに移動` the source highlights nothing while the model highlights Kitchen.
- `ExtractArrows` and `ParseDirection`: case-insensitive matching is modelled on ASCII letters. Python's `re.IGNORECASE` also matches `direction=rıght`, with a dotless ı (U+0131), and then emits the direction `rıght`. The model finds no marker there.
- `TokenFormatOk`: case folding is modelled on ASCII letters. Under `re.IGNORECASE` the source also matches `x.ſvg`, with a long ſ (U+017F), and reports the format `ſvg`, which is not an image extension after `str.lower`.
- `FirstWordAt`, `DirectionWordAt` and `ExtensionAt` state only the bound in their contracts. The lemmas `FirstWordSpelled`, `DirectionWordSpelled` and `ExtensionSpelled` state that the measured text is one of the words.
- `Scanner.ArrowCommandAt` and `Scanner.ImagePathAt`: their contracts leave out the fact that the matched direction or extension is one of the words. `Scanner.ArrowCommandWord` and `Scanner.ImagePathWord` state that fact for every match.
- `ParseDirection` keeps the direction as an enumeration. The item's direction is `Name()`, the lower-cased word the source stores.
