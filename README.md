# velum-sail command core in Dafny

This project models the command framework of velum-sail. That framework
turns a chat message into a call of a Python command callback. The model
follows one message through each stage:

- **Tokenizer.** `parse_content` splits the invocation into positional
  tokens and `--name` / `-n` keyword tokens. It honours quotes and
  backslash escapes.
- **Argument parsers.** Numbers, booleans, strings, and the list, set and
  single-value ("unpack") containers turn tokens into values. The
  `MentionContainerParser` of the example plugin is also modelled.
- **Parameter description.** `unpack_typehint` and `ParamInfo` derive a
  description of each callback parameter from its annotation. This covers
  parser selection, container choice, the `Greedy` marker and flags, and
  the typesafe overrides applied by the `param` decorator.
- **Signature parser.** The `SignatureParser` binder matches tokens to
  parameters. Positional binding handles greedy, non-greedy and trailing
  containers, defaults and leftover tokens. Keyword binding handles
  aliases, flags and containers.
- **Command.** A `Command` is built from a callback. `validate_params`
  splits its parameters into positional and keyword-only ones.
- **CommandManager.** It keeps the registry of names and aliases. It also
  provides the prefix-based `prepare` step and the routing of
  `try_invoke`.
- **Plugin.** A `Plugin` holds its own commands and listeners, and adds
  them to a manager on `load` and removes them on `unload`.

The model keeps the source's own form:

- Pure transformations are datatypes and functions, with lemmas.
- Code that loops or mutates is imperative Dafny. These are methods on
  classes whose fields are the Python object's fields: `ParamInfo`,
  `SignatureParser`, `Command`, `CommandManager` and `Plugin`. The
  tokenizer's character loop is a method as well.
- Each such method is proved equal to a specification function. The
  properties are proved about that function.

Modules, in dependency order:

- `Wrappers`: `Option`, `Result`.
- `Errors`: the Python classes, values and exceptions the core inspects or
  raises.
- `Strings`: `isspace`, `strip`, `join`, ASCII `lower`, digits.
- `Tokenizer`, with worked examples in `TokenizerExamples`.
- `ArgumentParsers`.
- `MentionParser`.
- `TypingUtils`.
- `ParamInfos`.
- `Binding`: the binder as functions.
- `SignatureParsers`: the binder as a class with methods.
- `Commands`.
- `CommandManagers`.
- `Plugins`.

Choices where the code and its documentation differ, or where the code
relies on something the model has to spell out:

- **Container parsers.** The binder reads `param.container_parser` and
  `param.has_container`, but `ParamInfo` only has a `container` field. The
  model stores the container parser in that field. A parameter "has a
  container" exactly when its container parser is not the unpack parser.
  As written, `ParamInfo` is a slotted `attr.define()` class with neither
  attribute, so each of those reads raises `AttributeError`
  (sail/impl/signature_parser.py lines 100, 109, 133, 142, 156, 165, 192
  and 266). Every command with a positional parameter, and every command
  given a value for a non-`bool` keyword parameter, then fails to bind.
  The model describes the binder as evidently intended. It does not model
  that `AttributeError`.
- **Nested `Annotated`.** `typing` flattens `Annotated[Annotated[T, x], y]`
  into `Annotated[T, x, y]` when it builds the annotation. The model keeps
  the layers in its annotation datatype, and `unpack_typehint` joins their
  extras, innermost first. So `Annotated[Greedy[list[int]], x]` is still
  greedy.
- **`update_param_typesafe`.** `SignatureParser.update_param_typesafe`
  passes `container_parser=`, but `override_typesafe` only accepts
  `container=`, so the call as written always raises `TypeError`. The
  model uses the evidently intended forwarding, and proves the as-written
  behaviour separately (see Findings).
- **`Plugin.remove_command`.** Its first step is `isinstance(command,
  command_trait.Command)`. `Command` is a `typing.Protocol` without
  `@runtime_checkable`, so `isinstance` raises `TypeError` for every
  argument. The model's `Plugin.RemoveCommand` removes the command as
  evidently intended, and proves the as-written behaviour separately (see
  Findings).
- **Identity checks against `empty`.** The checks `default is not empty`
  and `annotation is not empty` compare with the `empty` module object.
  No default or annotation is that object, so both checks always hold.
  The model keeps the consequences:
  - a truthy default override always raises `ValueError`;
  - an unannotated context parameter is rejected by `issubclass`.
- **Keyword parameters.** `kw_params` is a dict whose keys are the
  parameter names. The model stores it as a sequence in insertion order,
  with names kept unique.
- **Missing keyword tokens.** A keyword-only, non-`bool` parameter whose
  key is absent from the tokens raises `KeyError` in `_parse_kw`, even
  when it has a default. The model keeps this behaviour.
- **`int()`.** The model's integer parser strips Python whitespace and
  accepts an optional sign followed by ASCII digits. This is narrower than
  `int()`; see "## Left out".

## Model

| member | source | states |
|---|---|---|
| Tokenizer.Finalise | sail/internal/parser.py:38-47 | without a name the value becomes a new positional token; with a name it is appended to that key's list (creating it, and recording first-insertion order); every other key and list is unchanged; name and value are reset |
| Tokenizer.FinaliseArgument | sail/internal/parser.py:38-47 | the nested `finalise_argument` produces exactly the scan state `Finalise` describes |
| Tokenizer.ReadQuoted | sail/internal/parser.py:54-66 | the inner loop reads up to the closing quote, taking escaped characters literally; it reports failure exactly when the input ends first |
| Tokenizer.ReadLongName | sail/internal/parser.py:73-77 | after `--` the name is every character up to the next space or the end, and reading resumes after that space |
| Tokenizer.ReadDash | sail/internal/parser.py:68-87 | the dash branch (close an open name, `--name`, `-c`, bare `-`/`--` as positional, end of input raising) agrees with the specification `Dash` in result, position and state |
| Tokenizer.ParseContent | sail/internal/parser.py:28-100 | the character loop returns exactly `Tokenize(content)`, including its `StopIteration` failures |
| Tokenizer.PlainInputYieldsWords | sail/internal/parser.py:89-100 | text without escapes, quotes or dashes tokenizes to its space-separated non-empty words, with no keywords |
| Tokenizer.PlainRun | sail/internal/parser.py:89-96 | on plain text the loop appends exactly the words of the pending value followed by the rest |
| Tokenizer.SplitSpaceOfWord | sail/internal/parser.py:89-96 | a space-free prefix joins the first word of the text after it |
| Tokenizer.PlainEnd | sail/internal/parser.py:98-100 | at the end of input a pending value becomes one last token, and an empty one adds nothing |
| Tokenizer.WordsAtSpace | sail/internal/parser.py:89-92 | a space ends the current word, and an empty word is not emitted |
| Tokenizer.RunOrdinary | sail/internal/parser.py:94-96 | an ordinary character is appended to the current value |
| Tokenizer.RunSpace | sail/internal/parser.py:89-92 | a space finalises the current argument only when its value is non-empty |
| Tokenizer.SpaceStep | sail/internal/parser.py:89-92 | the same rule for a space at the head of any input |
| Tokenizer.WordStep | sail/internal/parser.py:94-96 | a plain word is appended to the current value in one step |
| Tokenizer.EscapeIsLiteral | sail/internal/parser.py:50-52 | a backslash makes the next character part of the value, whatever it is |
| Tokenizer.TrailingEscapeIsDropped | sail/internal/parser.py:50-52 | a backslash at the very end contributes nothing (`next(..., "")`) |
| Tokenizer.EscapeInsideQuotes | sail/internal/parser.py:58-61 | inside quotes a backslash escapes the next character, including the closing quote |
| Tokenizer.QuoteIsNotSpecial | sail/internal/parser.py:6-25 | no opening or closing quote is a backslash, a dash or a space, so the branches of the loop are disjoint |
| Tokenizer.AsciiQuotes | sail/internal/parser.py:6-25 | among ASCII characters only `"` and `'` open a quote, and `"` closes itself |
| Tokenizer.QuotedVerbatim | sail/internal/parser.py:54-66 | text without the closing quote or a backslash is read verbatim up to the closing quote |
| Tokenizer.QuotedSpanIsOneToken | sail/internal/parser.py:54-66 | a quoted span, spaces included, is appended to the current value and finalised as one argument |
| Tokenizer.QuotedUnterminated | sail/internal/parser.py:57 | without its closing quote the quoted read fails |
| Tokenizer.UnterminatedQuoteFails | sail/internal/parser.py:57 | an unterminated quote makes the whole tokenization raise `StopIteration` |
| Tokenizer.TrailingDashFails | sail/internal/parser.py:73 | a dash at the very end raises `StopIteration` |
| Tokenizer.RunOnDash | sail/internal/parser.py:68-87 | a dash hands the rest of the input to the dash branch and resumes where it stopped |
| Tokenizer.NameRunOfWord | sail/internal/parser.py:73-77 | the long-name reader takes a space-free word and stops after the space, or at the end |
| Tokenizer.DashLongName | sail/internal/parser.py:73-77 | `--name` opens keyword `name` after closing any open one |
| Tokenizer.LongFlagReadsToSpace | sail/internal/parser.py:73-77 | `--name ` opens keyword `name` and continues after the space |
| Tokenizer.LongFlagReadsToEnd | sail/internal/parser.py:73-77 | `--name` at the end of input opens keyword `name` |
| Tokenizer.ShortFlagTakesOneChar | sail/internal/parser.py:79-83 | `-c` opens the one-character keyword `c`; the following characters are its value |
| Tokenizer.LoneDashIsPositional | sail/internal/parser.py:79-87 | `- ` is the positional token `-` |
| Tokenizer.DoubleDashIsPositional | sail/internal/parser.py:73-87 | `-- ` and a final `--` are the positional token `--` |
| Tokenizer.DashClosesOpenFlag | sail/internal/parser.py:69-71 | a new dash first finalises the keyword opened by the previous one |
| Tokenizer.Opened | sail/internal/parser.py:69-71 | after the name check of a dash no keyword is open |
| Tokenizer.GrowsTransitive | sail/internal/parser.py:38-47 | token growth (positionals extended, keys extended, every list extended) composes |
| Tokenizer.FinaliseGrows | sail/internal/parser.py:38-47 | finalising only extends the tokens and keeps the key order consistent with the dict |
| Tokenizer.DashFromOpened | sail/internal/parser.py:68-87 | the dash branch changes only positionals, from the state with the open name closed |
| Tokenizer.DashGrows | sail/internal/parser.py:68-87 | the dash branch only extends the tokens |
| Tokenizer.RunGrows | sail/internal/parser.py:49-100 | the whole loop only extends the tokens and keeps key order consistent |
| Tokenizer.TokenizeIsWellKeyed | sail/internal/parser.py:28-100 | the returned key order lists each keyword exactly once, and exactly the keys of `kwargs` |
| Tokenizer.LowercaseIsPlain | sail/internal/parser.py:94-96 | lower-case letters are ordinary characters |
| Tokenizer.SplitSpace | sail/internal/parser.py:89-92 | splitting at spaces yields at least one piece |
| TokenizerExamples.WordThenSpace | sail/internal/parser.py:89-96 | a word followed by a space is one positional token |
| TokenizerExamples.QuotedPhraseHead | sail/internal/parser.py:89-96 | `say` becomes a token before the quote starts |
| TokenizerExamples.QuotedPhraseTail | sail/internal/parser.py:54-66 | the quoted phrase becomes one token |
| TokenizerExamples.QuotedPhraseExample | sail/internal/parser.py:28-100 | `say "hello world"` tokenizes to `["say", "hello world"]` |
| TokenizerExamples.RepeatedFlagHead | sail/internal/parser.py:68-77 | `cmd --tag` opens keyword `tag` after positional `cmd` |
| TokenizerExamples.RepeatedFlagMiddle | sail/internal/parser.py:38-47 | the second `--tag` files the first value under `tag` |
| TokenizerExamples.RepeatedFlagTail | sail/internal/parser.py:98-100 | the final value is appended to the same key's list |
| TokenizerExamples.RepeatedFlagExample | sail/internal/parser.py:28-100 | `cmd --tag x --tag y` gives positional `cmd` and `tag: ["x", "y"]` |
| TokenizerExamples.EscapedSpaceExample | sail/internal/parser.py:50-52 | `a\ b` is the single token `a b` |
| TokenizerExamples.UnterminatedQuoteExample | sail/internal/parser.py:57 | an unterminated quote raises `StopIteration` |
| TokenizerExamples.BareShortFlagExample | sail/internal/parser.py:79-83 | `-f` alone gives keyword `f` with the single empty value |
| Strings.SkipSpace | sail/impl/command_manager.py:137 | the index of the first non-space character from a position, with everything skipped being space |
| Strings.TrimEnd | sail/impl/command_manager.py:129 | the end of the text once trailing whitespace is dropped |
| Strings.LStrip | sail/impl/command_manager.py:137 | `lstrip()` drops exactly the leading whitespace and keeps a suffix |
| Strings.RStrip | sail/impl/command_manager.py:129 | `rstrip()` drops exactly the trailing whitespace and keeps a prefix |
| Strings.Strip | sail/impl/command_manager.py:129 | `strip()` keeps a contiguous slice of the text, dropping only whitespace before and after it, and leaves no whitespace at either end |
| Strings.Join | sail/impl/signature_parser.py:224-227 | joining nothing is empty and joining one piece is that piece |
| Strings.JoinEmpty | sail/impl/signature_parser.py:224-227 | with a non-empty separator the join is empty exactly for no pieces or one empty piece |
| Strings.Lower | sail/impl/argument_parser.py:92 | `lower()` maps ASCII capitals to small letters and keeps everything else, position by position |
| ArgumentParsers.NatToDigits | sail/impl/argument_parser.py:62-66 | the decimal representation of a natural is all digits, denotes it, and has no leading zero |
| ArgumentParsers.IntToString | sail/impl/argument_parser.py:62-66 | `str(i)` is non-empty and starts with `-` exactly for negatives |
| ArgumentParsers.ParseInt | sail/impl/argument_parser.py:62-66 | `int(s)` succeeds only on text that is not blank |
| ArgumentParsers.SplitAtDot | sail/impl/argument_parser.py:62-66 | a literal splits at its first dot, or has none |
| ArgumentParsers.Convert | sail/impl/argument_parser.py:51-66 | a successful conversion has the parser's type, `float` in decimal mode and `int` otherwise |
| ArgumentParsers.Parse | sail/impl/argument_parser.py:55-123 | a scalar parser fails only with a `ConversionError` naming its own type; a success is the default or a value of its type; `StringParser` never fails |
| ArgumentParsers.IntegerRejectIgnoresDefault | sail/impl/argument_parser.py:62-66 | an invalid integer literal raises whether or not a default is given |
| ArgumentParsers.DefaultMasksParsedNumber | sail/impl/argument_parser.py:68-70 | once the literal converts, a given default is returned instead of the number |
| ArgumentParsers.UnsignedRejectsNegative | sail/impl/argument_parser.py:72-79 | an unsigned parser rejects a negative number and a signed one returns it |
| ArgumentParsers.StripIdentity | sail/impl/argument_parser.py:62-66 | text with non-space ends is its own strip |
| ArgumentParsers.NatRoundTrip | sail/impl/argument_parser.py:62-66 | `int(str(n)) == n` for naturals |
| ArgumentParsers.NegativeRoundTrip | sail/impl/argument_parser.py:62-66 | `int(str(i)) == i` for negatives |
| ArgumentParsers.IntRoundTrip | sail/impl/argument_parser.py:55-79 | `int(str(i)) == i`, and the integer parser returns `i` for `str(i)`, unsigned too when `i >= 0` |
| ArgumentParsers.IntIgnoresPadding | sail/impl/argument_parser.py:62-66 | whitespace around an integer literal is ignored |
| ArgumentParsers.IntToStringEnds | sail/impl/argument_parser.py:62-66 | `str(i)` has no whitespace at either end |
| ArgumentParsers.StripPadded | sail/impl/argument_parser.py:62-66 | stripping whitespace padding returns the padded text |
| ArgumentParsers.LStripPadded | sail/impl/argument_parser.py:62-66 | leading padding is all `lstrip` removes |
| ArgumentParsers.RStripPadded | sail/impl/argument_parser.py:62-66 | trailing padding is all `rstrip` removes |
| ArgumentParsers.BoolWords | sail/impl/argument_parser.py:87-106 | `yes/y/true/t/1` give `True` and `no/n/false/f/0` give `False`, ignoring case; anything else gives the default or a `ConversionError` |
| ArgumentParsers.LowerIdempotent | sail/impl/argument_parser.py:92 | lower-casing twice is lower-casing once |
| ArgumentParsers.BoolCaseInsensitive | sail/impl/argument_parser.py:87-106 | the boolean parser depends only on the lower-cased argument |
| ArgumentParsers.BoolRoundTrip | sail/impl/argument_parser.py:87-106 | `str(b)` parses back to `b` |
| ArgumentParsers.BoolWordsDisjoint | sail/impl/argument_parser.py:94-104 | no word is both true and false |
| ArgumentParsers.StringIdentity | sail/impl/argument_parser.py:114-123 | a non-empty argument is returned unchanged; the empty one gives the default if there is one |
| ArgumentParsers.NewSequenceParser | sail/impl/argument_parser.py:153-160 | an abstract collection type becomes `list`, any other is kept |
| ArgumentParsers.NewSetParser | sail/impl/argument_parser.py:164-171 | an abstract collection type becomes `set`, any other is kept |
| ArgumentParsers.Construct | sail/impl/argument_parser.py:138-149 | a list keeps the items in order; a set has exactly the items' elements and fails exactly when one is unhashable |
| ArgumentParsers.Collect | sail/impl/argument_parser.py:138-149 | a constructed collection is returned; a failed one gives the default or a `ConversionError` carrying the cause |
| ArgumentParsers.ParseContainer | sail/impl/argument_parser.py:138-206 | a container parser fails only with a `ConversionError` for its own type on the given items; the mention parser fails only with `TypeError` and no default |
| ArgumentParsers.UnpackByCount | sail/impl/argument_parser.py:184-206 | one item is returned; none gives the default or an error; more than one is an error |
| ArgumentParsers.SequenceKeepsElements | sail/impl/argument_parser.py:138-160 | a sequence parser returns the items in order |
| ArgumentParsers.SetKeepsElements | sail/impl/argument_parser.py:138-171 | a set parser returns exactly the items' elements, or the default or an error when one is unhashable |
| ArgumentParsers.ParseNumberIntended | sail/impl/argument_parser.py:55-79 | the corrected number parser returns the converted number when it is accepted; with a default it never fails, and the default replaces exactly a literal that does not convert or a negative number refused by an unsigned parser; without a default those two cases raise a `ConversionError` with an invalid-literal or not-unsigned cause |
| ArgumentParsers.NumberIntendedDefaultRescues | sail/impl/argument_parser.py:55-79 | in the corrected parser a default changes only the failures, each into that default |
| ArgumentParsers.NumberIntendedRescuesInvalidLiteral | sail/impl/argument_parser.py:62-70 | a literal `int()` rejects raises as written even with a default, and gives the default in the corrected parser |
| ArgumentParsers.NumberDefaultDiscrepancy | sail/impl/argument_parser.py:68-70 | `parse("5", default=3)` returns 3 as written, but 5 under the corrected parser |
| ArgumentParsers.NumberIntendedAgreesWithoutDefault | sail/impl/argument_parser.py:55-79 | with no default the corrected and as-written number parsers agree |
| MentionParser.Mentions | examples/parser.py:108-110 | the filter keeps exactly the items that are strings starting with `@`, in order |
| MentionParser.ParseMentions | examples/parser.py:103-118 | the mentions list is returned when non-empty; otherwise the default, or `TypeError` |
| MentionParser.MentionsOfConcat | examples/parser.py:108-110 | filtering distributes over concatenation |
| MentionParser.MentionsKeepsExactlyMentions | examples/parser.py:108-110 | the filter is the identity exactly on lists of mentions |
| MentionParser.MentionsIdempotent | examples/parser.py:108-110 | filtering twice is filtering once |
| MentionParser.MentionsOfOne | examples/parser.py:108-110 | a single item is kept exactly when it is a mention |
| MentionParser.DocumentedTokens | examples/parser.py:124-132 | `@foo`, `@bar`, `@baz` are mentions and `bat` is not |
| MentionParser.DocumentedMentions | examples/parser.py:124-132 | the documented call yields `["@foo", "@bar", "@baz"]` |
| TypingUtils.Core | sail/internal/typing_utils.py:36-41 | unwrapping `Annotated` leaves a non-annotated type |
| TypingUtils.UnpackTypehint | sail/internal/typing_utils.py:29-52 | unpacking fails with `IndexError` exactly on a generic without arguments; extras come only from `Annotated` |
| TypingUtils.OuterExtrasLast | sail/internal/typing_utils.py:36-41 | the outermost `Annotated` layer's arguments end the extras, after those of the layers it wraps |
| TypingUtils.NestedAnnotatedFlattens | sail/internal/typing_utils.py:36-41 | two nested `Annotated` layers unpack as the single flattened layer `typing` builds |
| TypingUtils.AnnotatedAppends | sail/internal/typing_utils.py:36-41 | one more `Annotated` layer keeps inner type and container and appends its arguments to the extras |
| TypingUtils.UnpackSeesThroughAnnotated | sail/internal/typing_utils.py:36-41 | `Annotated` never changes the inner type or the container, and the extras are those of the flattened annotation, every layer's in order |
| TypingUtils.UnpackShapes | sail/internal/typing_utils.py:36-52 | a plain type or union is its own inner type; a generic gives its origin as container and its first argument as inner; `Annotated` appends its arguments to the extras of what it wraps |
| TypingUtils.GreedyListOfInt | sail/internal/typing_utils.py:25-52 | `Greedy[list[int]]` unpacks to inner `int`, container `list`, marker `Greedy` |
| TypingUtils.AnnotatedGreedyListOfInt | sail/internal/typing_utils.py:25-41 | `Annotated[Greedy[list[int]], x]` unpacks to inner `int`, container `list` and extras `[GREEDY, x]` |
| TypingUtils.JoinedStrUnpacks | sail/internal/typing_utils.py:25-52 | `JoinedStr` unpacks to inner `str` with the joined-string marker |
| ParamInfos.PostInitError | sail/impl/param_info.py:31-36 | construction fails exactly when the state breaks the `ParamInfo` invariant |
| ParamInfos.ContainerFor | sail/impl/param_info.py:69-78 | no container gives the unpack parser; a container gives a parser of that type, or of its default concrete type when it is abstract |
| ParamInfos.SelectParser | sail/impl/param_info.py:69-78 | parser selection fails only with `TypeError`; a selected parser's type is a supertype of the annotation, or the annotation is `Any` |
| ParamInfos.DeriveParam | sail/impl/param_info.py:50-87 | a derived state keeps the parameter's name and default and has no short name |
| ParamInfos.DerivedIsValid | sail/impl/param_info.py:31-36 | every derived state satisfies the `ParamInfo` invariant |
| ParamInfos.AnnotatedGreedyParamIsGreedy | sail/impl/param_info.py:51-78 | a positional parameter annotated `Annotated[Greedy[list[int]], x]` is greedy, with a `list` sequence parser |
| ParamInfos.DeriveRules | sail/impl/param_info.py:53-78 | greedy exactly with the `Greedy` marker; flag exactly for a keyword-only plain `bool`; abstract containers become `list`; a container exactly when the hint has one |
| ParamInfos.DeriveErrors | sail/impl/param_info.py:57-67 | greedy keyword-only, a non-collection container and greedy without a container each raise `TypeError` |
| ParamInfos.ParserSelection | sail/impl/param_info.py:69-78 | `str` and `Any` select the string parser, `bool` the boolean parser (before `int`), `int`/`float` number parsers, and no annotation is rejected |
| ParamInfos.SelectsBool | sail/impl/param_info.py:69-78 | `bool` selects the boolean parser even though `bool` is an `int` |
| ParamInfos.SelectsNumbers | sail/impl/param_info.py:69-78 | `int` and `float` select integer and decimal number parsers |
| ParamInfos.SelectsNothingForEmpty | sail/impl/param_info.py:69-78 | an unannotated parameter is rejected |
| ParamInfos.Override | sail/impl/param_info.py:89-148 | an override never changes the name, the default or the flag field |
| ParamInfos.ParserOverrideRule | sail/impl/param_info.py:102-109 | a parser override applies exactly when its type is a subtype of the current one, and otherwise raises `TypeError` |
| ParamInfos.DefaultOverrideRule | sail/impl/param_info.py:111-115 | a truthy default override always raises `ValueError` and never sets the default |
| ParamInfos.ContainerOverrideRule | sail/impl/param_info.py:117-127 | a container override applies unless the parameter has a container of an unrelated type, which raises `TypeError` |
| ParamInfos.ShortAndFlagRules | sail/impl/param_info.py:129-130 | a non-empty short name is set and makes the parameter a flag; an empty one does nothing; turning a flag into a non-flag raises |
| ParamInfos.GreedyOverrideRule | sail/impl/param_info.py:132-141 | `greedy` on a flag raises, greedy-to-non-greedy raises, any other value is set |
| ParamInfos.OverridePreservesValid | sail/impl/param_info.py:89-148 | overrides that set no greedy and no short name on a greedy parameter keep the invariant |
| ParamInfos.OverrideCanBreakValid | sail/impl/param_info.py:89-148 | a short name on a greedy parameter, or greedy on a container-less one, succeeds yet breaks the invariant |
| ParamInfos.ParamInfo.Init | sail/impl/param_info.py:21-29 | the object holds exactly the given fields |
| ParamInfos.ParamInfo.Create | sail/impl/param_info.py:31-36 | construction succeeds exactly on states satisfying the invariant, and reports the post-init error otherwise |
| ParamInfos.ParamInfo.FromParameter | sail/impl/param_info.py:50-87 | `from_parameter` fails or succeeds as `DeriveParam`, and a fresh object holds the derived state |
| ParamInfos.ParamInfo.OverrideTypesafe | sail/impl/param_info.py:89-148 | the in-place override leaves the object in the state, and raises the error, that `Override` gives |
| ParamInfos.ParamInfo.OverrideFlagsStep | sail/impl/param_info.py:132-148 | the `greedy` and `flag` checks leave the object in the state, and raise the error, that `OverrideFlags` gives: a flag cannot become greedy, a greedy parameter cannot become non-greedy, a flag cannot stop being one |
| Binding.IndexOf | sail/impl/signature_parser.py:65-67 | the first positional with the name, or none has it |
| Binding.Locate | sail/impl/signature_parser.py:62-70 | keyword parameters are searched first, then positionals; the lookup is missing exactly when no parameter has the name |
| Binding.UpdateKeepsNames | sail/impl/signature_parser.py:46-86 | an update keeps the same parameter names, possibly reordered, and keeps them unique |
| Binding.UpdateKeywordKeepsNames | sail/impl/signature_parser.py:62-86 | updating a keyword parameter keeps every name in place |
| Binding.UpdatePositionalKeepsNames | sail/impl/signature_parser.py:72-86 | updating a positional parameter keeps the names and their uniqueness |
| Binding.UpdateMovedKeepsNames | sail/impl/signature_parser.py:74-76 | a positional that becomes a flag moves to the end of the keyword parameters without losing or doubling a name |
| Binding.UpdateReplacedKeepsNames | sail/impl/signature_parser.py:79-86 | otherwise it is updated in place and the names stay in order |
| Binding.UpdatePositionalShape | sail/impl/signature_parser.py:72-86 | a positional update either moves the overridden state to the keyword end or replaces it in place |
| Binding.UpdateWithoutOverrides | sail/impl/signature_parser.py:46-86 | an update with no overrides on an existing name changes nothing and raises nothing |
| Binding.FlagOverrideDoesNotMakeAFlag | sail/impl/signature_parser.py:72-76 | `flag=True` alone moves the parameter to the keywords, but it does not become a flag, because `override_typesafe` never sets the flag field |
| Binding.UpdateAsWrittenAlwaysFails | sail/impl/signature_parser.py:79-86 | as written every update raises; past the lookup and the move it is the `container_parser` `TypeError`; no parameter is lost |
| Binding.UpdateDiscrepancy | sail/impl/signature_parser.py:79-86 | `short="v"` on a positional `verbose` raises `TypeError` as written, while the intended forwarding moves it to the keywords with short `v` |
| Binding.Greedy | sail/impl/signature_parser.py:88-112 | greedy consumption never moves backwards nor past the end and passes on at most one carried value |
| Binding.NonGreedy | sail/impl/signature_parser.py:114-145 | non-greedy consumption reads at least one token and passes on at most one carried value |
| Binding.NonGreedyRest | sail/impl/signature_parser.py:120-145 | the rest of the non-greedy loop stays within the tokens |
| Binding.Remaining | sail/impl/signature_parser.py:147-156 | the last container consumes every remaining token |
| Binding.PositionalStep | sail/impl/signature_parser.py:179-217 | one turn of the positional loop never moves backwards nor past the end |
| Binding.AddAliases | sail/impl/signature_parser.py:39-42 | a parameter adds its name and non-empty short name, both mapped to its name, and keeps other entries |
| Binding.AliasMap | sail/impl/signature_parser.py:36-44 | no keyword parameters give an empty alias map |
| Binding.AliasMapEntries | sail/impl/signature_parser.py:36-44 | a key is in the alias map exactly when it is some keyword parameter's name or short name, and maps to a name of that kind |
| Binding.AliasMapStep | sail/impl/signature_parser.py:38-42 | each loop iteration adds one parameter's aliases |
| Binding.AliasOf | sail/impl/signature_parser.py:36-44 | with unique aliases each alias maps to its own parameter's name |
| Binding.UniqueAliasesUniqueNames | sail/impl/signature_parser.py:36-44 | unique aliases imply unique names |
| Binding.OwnAliases | sail/impl/signature_parser.py:39-42 | a parameter's aliases include its name and its short name |
| Binding.SharedKeySameParam | sail/impl/signature_parser.py:36-44 | with unique aliases no alias belongs to two parameters |
| Binding.ParseAllMeaning | sail/impl/signature_parser.py:263-264 | parsing every value succeeds exactly when each succeeds, with one result per value in order |
| Binding.ParseAllSplit | sail/impl/signature_parser.py:263-264 | parsing a list is parsing its two halves in turn |
| Binding.ParseAllExtends | sail/impl/signature_parser.py:263-264 | one more successful value extends the results by it |
| Binding.ParseAllFirstError | sail/impl/signature_parser.py:263-264 | the first failing value's error is the error raised |
| Binding.ParseAllCons | sail/impl/signature_parser.py:263-264 | parsing a list is parsing its head and then its tail |
| Binding.LeftoverRule | sail/impl/signature_parser.py:224-227 | unread tokens raise `RuntimeError` unless there are none or only one empty token; the results are kept |
| Binding.RemainingTakesAll | sail/impl/signature_parser.py:147-156 | the last container parses all remaining tokens and wraps them with the carry |
| Binding.AcceptedRun | sail/impl/signature_parser.py:96-106 | the maximal run of tokens this parameter's parser accepts |
| Binding.GreedyTakesLongestRun | sail/impl/signature_parser.py:88-112 | a greedy parameter takes the longest accepted run and stops at the first rejected token |
| Binding.GreedyShifts | sail/impl/signature_parser.py:96-106 | an accepted token joins the greedy run |
| Binding.RejectedRun | sail/impl/signature_parser.py:126-140 | the run of tokens the next parameter's parser rejects |
| Binding.NonGreedyStopsAtFirstAccept | sail/impl/signature_parser.py:114-145 | a non-greedy parameter takes its first token, then stops at the first token the next parameter accepts |
| Binding.NonGreedyRestRun | sail/impl/signature_parser.py:126-145 | the loop after the first token reads up to the next parameter's first accepted token |
| Binding.ReadShifts | sail/impl/signature_parser.py:126-140 | a token the next parameter rejects is parsed into this one |
| Binding.ReadFailsAtFirst | sail/impl/signature_parser.py:126-140 | a token this parameter cannot parse raises its error |
| Binding.PositionalAppends | sail/impl/signature_parser.py:167-229 | positional binding only appends, at most one value per parameter and exactly one each on success |
| Binding.DefaultsAppends | sail/impl/signature_parser.py:219-222 | the default loop only appends, one value per remaining parameter on success |
| Binding.BoundPositionalsMatchParams | sail/impl/signature_parser.py:167-229 | a successful positional binding has exactly one value per positional parameter |
| Binding.DefaultsRule | sail/impl/signature_parser.py:219-222 | at the end of input the remaining parameters bind exactly when each has a default, and then to those defaults in order |
| Binding.RequiredHasNoDefault | sail/impl/signature_parser.py:158-165 | a parameter without a default raises `RuntimeError` naming it when no token is left |
| Binding.ScalarDefaultIsKept | sail/impl/signature_parser.py:158-165 | a scalar parameter's default is used as is |
| Binding.ParseEach | sail/impl/signature_parser.py:179-217 | pairing the first n parameters with the first n tokens parses each pair |
| Binding.ScalarStep | sail/impl/signature_parser.py:179-217 | a scalar parameter takes the next token, or its default at the end of input |
| Binding.ParseEachFails | sail/impl/signature_parser.py:179-217 | pairing fails exactly when some pair fails |
| Binding.ParseEachGrows | sail/impl/signature_parser.py:179-217 | pairing one more parameter appends its parsed token |
| Binding.ScalarsReadOneTokenEach | sail/impl/signature_parser.py:179-217 | scalar parameters read one token each, in order |
| Binding.ScalarsBindInOrder | sail/impl/signature_parser.py:167-229 | as many tokens as scalar parameters bind pairwise, in order |
| Binding.ScalarsRejectExtraTokens | sail/impl/signature_parser.py:224-227 | extra tokens after scalar parameters raise `RuntimeError` listing them, unless only one empty token is left |
| Binding.ScalarsThenDefaults | sail/impl/signature_parser.py:179-222 | with too few tokens the scalars read what there is and the rest take their defaults |
| Binding.ScalarsRunOut | sail/impl/signature_parser.py:179-222 | once the tokens run out only the default loop remains |
| Binding.SingleContainerTakesAll | sail/impl/signature_parser.py:147-156 | a lone container parameter takes every token |
| Binding.NonGreedyNeedsAToken | sail/impl/signature_parser.py:114-120 | a non-greedy container that is not last raises `StopIteration` when no token is left |
| Binding.UnaliasKeys | sail/impl/signature_parser.py:231-240 | unaliasing maps each given key through the alias map |
| Binding.InUnalias | sail/impl/signature_parser.py:231-240 | a name is unaliased exactly when some given key maps to it |
| Binding.GivenKeyUnaliases | sail/impl/signature_parser.py:231-240 | any alias given for a parameter unaliases to its name |
| Binding.UnaliasedNameWasGiven | sail/impl/signature_parser.py:231-240 | an unaliased name comes from one of that parameter's aliases |
| Binding.NameUnaliased | sail/impl/signature_parser.py:231-240 | a keyword parameter appears after unaliasing exactly when one of its aliases was given |
| Binding.UnknownKeywordsRejected | sail/impl/signature_parser.py:248-255 | a key matching no alias raises `RuntimeError` naming the unknown keys; otherwise the keyword loop runs on the unaliased tokens |
| Binding.KeywordsKeys | sail/impl/signature_parser.py:257-280 | a successful keyword binding has a result for exactly the keyword parameters |
| Binding.KeywordsValues | sail/impl/signature_parser.py:257-280 | each keyword result is what that parameter's rule gives |
| Binding.KeywordsKeep | sail/impl/signature_parser.py:257-280 | results already stored for other names are kept |
| Binding.KeywordsBindEach | sail/impl/signature_parser.py:242-280 | the keyword loop stores, for exactly its parameters, the value each parameter's rule gives |
| Binding.FlagValue | sail/impl/signature_parser.py:259-261 | a `bool` keyword parameter's value is whether its name is among the unaliased keys |
| Binding.FlagIsPresence | sail/impl/signature_parser.py:259-261 | a bound `bool` keyword is `True` exactly when its name or its short name was given |
| Binding.BindSucceedsWithBothPhases | sail/impl/signature_parser.py:282-304 | parsing succeeds exactly when both phases do, and returns both phases' results |
| Binding.PositionalFailureComesFirst | sail/impl/signature_parser.py:286-293 | a positional failure is raised whatever the keywords, with the positional results attached to a `ConversionError` |
| Binding.Names | sail/impl/signature_parser.py:64-67 | the parameter names, position by position |
| SignatureParsers.States | sail/impl/signature_parser.py:22-24 | the states of the parameter objects, position by position |
| SignatureParsers.ParamsDistinct | sail/impl/signature_parser.py:22-24 | unique names mean that no parameter object appears twice |
| SignatureParsers.ParseContentCallback | sail/impl/signature_parser.py:25 | the default string parser is `parse_content` |
| SignatureParsers.SignatureParser.constructor | sail/impl/signature_parser.py:22-25 | the parser holds the given parameters and string parser |
| SignatureParsers.SignatureParser.BuildAliasMap | sail/impl/signature_parser.py:36-44 | the property's loop builds `AliasMap` of the keyword parameters |
| SignatureParsers.SignatureParser.FindPositional | sail/impl/signature_parser.py:65-70 | the `for ... else` search finds the first positional with the name, or reports none |
| SignatureParsers.SignatureParser.UpdateParamTypesafe | sail/impl/signature_parser.py:46-86 | the in-place update leaves exactly the parameters, and raises exactly the error, of `Update` |
| SignatureParsers.SignatureParser.UpdateKeyword | sail/impl/signature_parser.py:62-63 | the keyword-parameter branch agrees with `Update` |
| SignatureParsers.SignatureParser.UpdatePositional | sail/impl/signature_parser.py:65-86 | the positional branch agrees with `Update` |
| SignatureParsers.SignatureParser.MovePositional | sail/impl/signature_parser.py:74-86 | the moved parameter leaves the positionals and is appended, overridden, to the keywords |
| SignatureParsers.SignatureParser.OverridePositional | sail/impl/signature_parser.py:79-86 | the positional is overridden in place and nothing else changes |
| SignatureParsers.SignatureParser.ConsumeGreedyPos | sail/impl/signature_parser.py:88-112 | the loop computes `Binding.Greedy` |
| SignatureParsers.SignatureParser.ConsumeNongreedyPos | sail/impl/signature_parser.py:114-145 | the loop computes `Binding.NonGreedy` |
| SignatureParsers.SignatureParser.ConsumeRemainingPos | sail/impl/signature_parser.py:147-156 | the loop computes `Binding.Remaining` |
| SignatureParsers.SignatureParser.TryDefaultPos | sail/impl/signature_parser.py:158-165 | the default or the missing-argument error |
| SignatureParsers.SignatureParser.PositionalTurn | sail/impl/signature_parser.py:179-217 | one iteration of the positional loop agrees with `Binding.PositionalStep` |
| SignatureParsers.SignatureParser.ParsePos | sail/impl/signature_parser.py:167-229 | `_parse_pos` computes `Binding.BindPositional`: the results so far and the error that stopped it |
| SignatureParsers.SignatureParser.DefaultsPos | sail/impl/signature_parser.py:219-222 | the default loop computes `Binding.Defaults` |
| SignatureParsers.SignatureParser.PreprocessKw | sail/impl/signature_parser.py:231-240 | `_preprocess_kw` computes `Binding.Unalias`, later keys overwriting earlier ones |
| SignatureParsers.SignatureParser.ParseValues | sail/impl/signature_parser.py:263-264 | the value loop computes `Binding.ParseAll` |
| SignatureParsers.SignatureParser.KeywordValueOf | sail/impl/signature_parser.py:258-278 | one keyword iteration computes `Binding.KeywordValue` |
| SignatureParsers.SignatureParser.ParseKw | sail/impl/signature_parser.py:242-280 | `_parse_kw` computes `Binding.BindKeywords` |
| SignatureParsers.SignatureParser.BindEachKeyword | sail/impl/signature_parser.py:257-280 | the keyword loop computes `Binding.Keywords` |
| SignatureParsers.SignatureParser.ParseTokens | sail/impl/signature_parser.py:282-304 | `_parse` computes `Binding.Bind` |
| SignatureParsers.SignatureParser.ParseInvocation | sail/impl/signature_parser.py:306-311 | `parse` binds the string parser's tokens, or raises its error |
| Commands.CommandName | sail/impl/command.py:96 | the name is the given non-empty name, or else the callback's `__name__` |
| Commands.CommandDescription | sail/impl/command.py:97 | the description is never empty: the given one, the docstring, or `"No description provided."` |
| Commands.AliasesAreGiven | sail/impl/command.py:100-105 | the aliases are exactly the names given, a single string counting as one alias |
| Commands.ContextCheck | sail/impl/command.py:143-146 | the first parameter passes exactly when annotated by a subclass of `Context`; otherwise `TypeError` |
| Commands.Place | sail/impl/command.py:151-154 | keyword-only parameters go to the keyword list, all others to the positionals, appended |
| Commands.SplitStep | sail/impl/command.py:148-154 | one more parameter derives and is placed, or raises |
| Commands.SplitErrorSticks | sail/impl/command.py:148-154 | once a parameter fails the loop raises that error |
| Commands.DeriveParamKeepsNames | sail/impl/param_info.py:50-87 | `from_parameter` keeps the parameter's name |
| Commands.SplitSorts | sail/impl/command.py:148-154 | the positional and keyword lists hold the non-keyword-only and keyword-only names in declaration order |
| Commands.SplitSucceeds | sail/impl/command.py:148-154 | splitting succeeds exactly when every parameter derives |
| Commands.SplitFailsAtFirst | sail/impl/command.py:148-154 | otherwise it raises the first failing parameter's error |
| Commands.DistinctInsert | sail/impl/command.py:151-154 | a new name keeps names distinct wherever it is placed |
| Commands.SplitUnique | sail/impl/command.py:148-154 | distinct parameter names give unique names in the binder, all of them the callback's |
| Commands.ValidateUnique | sail/impl/command.py:136-160 | a validated signature's binder has unique names |
| Commands.Command.Init | sail/impl/command.py:95-107 | the field assignments of `__init__` |
| Commands.Command.Create | sail/impl/command.py:85-108 | construction fails exactly when validation does; otherwise the command holds its name, description, aliases and a binder of the split parameters |
| Commands.Command.Signature | sail/impl/command.py:71-76 | the signature, or `RuntimeError` before it is parsed |
| Commands.Command.GetSignatureParser | sail/impl/command.py:78-83 | the signature parser, or `RuntimeError` before it is built |
| Commands.Command.ValidateParams | sail/impl/command.py:136-160 | `validate_params` raises exactly the validation error, or installs a binder holding the split parameters |
| Commands.Command.SplitSignature | sail/impl/command.py:141-154 | the loop computes the split of the parameters after the context |
| Commands.Command.Invoke | sail/impl/command.py:162-174 | the `Context` the callback is awaited with holds the command, prefix, name and bound arguments, or the parse raises |
| Commands.Command.UpdateParamTypesafe | sail/impl/command.py:110-134 | the update is forwarded to the signature parser, which ends as `Update` says, or raises `RuntimeError` when there is none |
| Commands.ApplyParam | sail/impl/command.py:177-203 | `param(...)` updates the command and returns the same command, or raises the update's error |
| CommandManagers.DistinctTail | sail/impl/command_manager.py:56-70 | a distinct list's tail is distinct and lacks its head |
| CommandManagers.DistinctCons | sail/impl/command_manager.py:56-70 | a new head keeps a distinct list distinct |
| CommandManagers.CanRegisterIff | sail/impl/command_manager.py:62-70 | adding succeeds exactly for distinct names all new to the registry |
| CommandManagers.CanUnregisterIff | sail/impl/command_manager.py:72-80 | removing succeeds exactly for distinct names all present |
| CommandManagers.RemoveKeyMembers | sail/impl/command_manager.py:72-80 | deleting a key keeps the others, distinct |
| CommandManagers.RemoveKeyAfter | sail/impl/command_manager.py:72-80 | deleting a key removes its one occurrence |
| CommandManagers.RegisterKeepsWellFormed | sail/impl/command_manager.py:56-60 | `_add_command` keeps the registry a dict whose order lists each key once |
| CommandManagers.UnregisterKeepsWellFormed | sail/impl/command_manager.py:72-80 | deleting one name keeps the registry well formed |
| CommandManagers.RegisterAllWellFormed | sail/impl/command_manager.py:62-70 | `add_command` keeps the registry well formed, even when it raises part-way |
| CommandManagers.UnregisterAllWellFormed | sail/impl/command_manager.py:72-80 | `remove_command` keeps the registry well formed, even when it raises part-way |
| CommandManagers.AssignCons | sail/impl/command_manager.py:62-70 | assigning a list of names is assigning its head, then its tail |
| CommandManagers.RegisterAllFresh | sail/impl/command_manager.py:62-70 | adding raises nothing exactly when the names are new, and then appends them all, mapped to the command |
| CommandManagers.RegisterAllCollision | sail/impl/command_manager.py:56-70 | the first name already taken raises `RuntimeError`, after the earlier names were added |
| CommandManagers.CanRegisterShrinks | sail/impl/command_manager.py:62-70 | names new to a larger registry are new to a smaller one |
| CommandManagers.RegisterThenUnregister | sail/impl/command_manager.py:62-80 | adding a command and then removing it restores the registry exactly |
| CommandManagers.UnregisterAdded | sail/impl/command_manager.py:72-80 | removing the names just appended restores the registry |
| CommandManagers.UnregisterFirstAdded | sail/impl/command_manager.py:72-80 | removing the first appended name leaves the rest appended |
| CommandManagers.UnregisterAllPresent | sail/impl/command_manager.py:72-80 | removing raises nothing exactly when every name is present, and then removes exactly those names |
| CommandManagers.UnregisterAllMissing | sail/impl/command_manager.py:72-80 | the first missing name raises `KeyError`, after the earlier ones were removed |
| CommandManagers.Listed | sail/impl/command_manager.py:32-34 | `commands` lists the command of each key in insertion order |
| CommandManagers.ListedCommands | sail/impl/command_manager.py:32-34 | a command is listed exactly when some name maps to it |
| CommandManagers.RegisteredIsFound | sail/impl/command_manager.py:62-70 | after adding, each name and alias finds the command |
| CommandManagers.FirstPrefix | sail/impl/command_manager.py:130-135 | the first prefix, in the order given, that the content starts with; or none matches |
| CommandManagers.SkipWord | sail/impl/command_manager.py:137 | the end of a word: the first whitespace from a position |
| CommandManagers.Shape | sail/impl/command_manager.py:137-145 | the split gives prefix, name and invocation; it fails exactly when nothing follows the prefix |
| CommandManagers.PrepareNoPrefix | sail/impl/command_manager.py:129-135 | the result is "not a command" exactly when the stripped content starts with no prefix |
| CommandManagers.PrepareOnlyPrefix | sail/impl/command_manager.py:137-141 | a message that is only a prefix and whitespace makes `split[0]` raise `IndexError` |
| CommandManagers.SplitOnceShape | sail/impl/command_manager.py:137 | `split(maxsplit=1)` gives the first word and the rest after the whitespace |
| CommandManagers.WordSlice | sail/impl/command_manager.py:137 | a word has no whitespace and is its own strip |
| CommandManagers.SpaceSlice | sail/impl/command_manager.py:137 | a run of whitespace is all whitespace |
| CommandManagers.TailSlice | sail/impl/command_manager.py:145 | the rest of stripped content is already stripped |
| CommandManagers.PrepareParts | sail/impl/command_manager.py:125-147 | a command message is its prefix, whitespace, a non-empty space-free name, whitespace and a stripped invocation |
| CommandManagers.PreparePrefix | sail/impl/command_manager.py:130-135 | the prefix found is the first matching one in the order given |
| CommandManagers.ShapeName | sail/impl/command_manager.py:137-145 | the name is the first word after the prefix |
| CommandManagers.ShapeRest | sail/impl/command_manager.py:137-145 | the invocation is the rest after the name and whitespace, or empty |
| CommandManagers.ShapeGaps | sail/impl/command_manager.py:137-145 | prefix, name and invocation with whitespace between are the whole content |
| CommandManagers.RunPrefixPrepare | sail/impl/command_manager.py:125-147 | the prefix `prepare` computes `PrefixPrepare` |
| CommandManagers.NoPrefixIgnored | sail/impl/command_manager.py:36-39 | a message with no prefix is ignored |
| CommandManagers.AddedIsRouted | sail/impl/command_manager.py:41-54 | after adding, a message naming the command or an alias is routed to it |
| CommandManagers.RemovedIsNotRouted | sail/impl/command_manager.py:41-43 | after removing, no name of the command is routed |
| CommandManagers.CommandManager.constructor | sail/impl/command_manager.py:28-34 | a new manager has no commands and the protocol's `prepare` stub |
| CommandManagers.CommandManager.WithPrefix | sail/impl/command_manager.py:117-122 | `with_prefix` gives an empty manager whose `prepare` is the prefix prepare for those prefixes |
| CommandManagers.CommandManager.SetPrepareCallback | sail/impl/command_manager.py:114-115 | the callback replaces `prepare`; the registry is unchanged |
| CommandManagers.CommandManager.Commands | sail/impl/command_manager.py:32-34 | the commands in insertion order of their names |
| CommandManagers.CommandManager.GetCommand | sail/impl/command_manager.py:105-106 | the command of that name or alias, or none |
| CommandManagers.CommandManager.AddName | sail/impl/command_manager.py:56-60 | `_add_command` adds the name, or raises and changes nothing |
| CommandManagers.CommandManager.AddCommand | sail/impl/command_manager.py:62-70 | `add_command` registers the name and then each alias, stopping at the first collision |
| CommandManagers.CommandManager.RemoveName | sail/impl/command_manager.py:72-80 | one name is deleted, or `KeyError` changes nothing |
| CommandManagers.CommandManager.RemoveCommand | sail/impl/command_manager.py:72-80 | `remove_command` deletes the name and then each alias, stopping at the first missing one |
| CommandManagers.CommandManager.DefineCommand | sail/impl/command_manager.py:82-103 | the decorator builds the command, adds it under its name and aliases, and returns it; a validation error changes nothing |
| CommandManagers.CommandManager.TryInvoke | sail/impl/command_manager.py:36-54 | `prepare` errors propagate; incomplete metadata or an unknown name does nothing; otherwise the command is invoked with the parsed arguments |
| CommandManagers.CommandManager.RunPrepareStep | sail/impl/command_manager.py:37 | `prepare(content)` as installed |
| Plugins.PluginAddEffect | sail/impl/plugin.py:107-111 | adding succeeds exactly for a new name, appending it; a taken name raises `RuntimeError` |
| Plugins.PluginRemoveEffect | sail/impl/plugin.py:113-118 | in the corrected removal, removing succeeds exactly for a present name and deletes only it; a missing name raises `RuntimeError` |
| Plugins.RemoveDiscrepancy | sail/impl/plugin.py:113-118 | as written, removing a command the plugin holds raises `TypeError` from `isinstance`, by command or by name; the corrected removal deletes exactly its entry |
| Plugins.AddThenRemoveAsWritten | sail/impl/plugin.py:107-118 | as written, a command just added cannot be removed again; the corrected removal restores the commands |
| Plugins.PluginAddThenRemove | sail/impl/plugin.py:107-118 | in the corrected removal, adding then removing a command restores the plugin's commands |
| Plugins.SubscribeEffect | sail/impl/plugin.py:143-159 | a non-coroutine raises `TypeError`; otherwise the callback is appended to that event's listeners and no other event changes |
| Plugins.UnsubscribeEffect | sail/impl/plugin.py:161-178 | an event without listeners is unchanged; an absent callback raises `ValueError`; otherwise its first occurrence is removed |
| Plugins.RemoveFirstEffect | sail/impl/plugin.py:161-178 | `list.remove` removes exactly one occurrence, the first |
| Plugins.FirstIndex | sail/impl/plugin.py:161-178 | the position of the first occurrence |
| Plugins.RemoveFirstSplit | sail/impl/plugin.py:161-178 | `list.remove` cuts the first occurrence out of the list |
| Plugins.SubscribeThenUnsubscribe | sail/impl/plugin.py:143-178 | subscribing a new callback and unsubscribing it restores all listeners |
| Plugins.RegisterAllKeeps | sail/impl/command_manager.py:62-70 | a successful add keeps existing entries and maps every new name to the command |
| Plugins.LoadKeeps | sail/impl/plugin.py:233-239 | loading keeps the manager's existing commands |
| Plugins.LoadedAreFound | sail/impl/plugin.py:233-239 | after loading, every name of every plugin command finds it in the manager |
| Plugins.LoadedIsFoundAt | sail/impl/plugin.py:233-239 | the same, for one command and one name |
| Plugins.UnloadedAreGone | sail/impl/plugin.py:261-262 | after unloading, no name of a plugin command remains and nothing is added |
| Plugins.Plugin.constructor | sail/impl/plugin.py:61-70 | a new plugin has its given name or its module's name, no client, no manager, no commands and no listeners |
| Plugins.Plugin.Client | sail/impl/plugin.py:72-77 | the client, or `RuntimeError` when not loaded |
| Plugins.Plugin.GetCommandManager | sail/impl/plugin.py:87-92 | the command manager, or `RuntimeError` when not loaded |
| Plugins.Plugin.AddCommand | sail/impl/plugin.py:107-111 | the plugin's commands change as `PluginAdd` says, and nothing else |
| Plugins.Plugin.RemoveCommand | sail/impl/plugin.py:113-118 | a command or a name is removed as the corrected `PluginRemove` says, and nothing else changes |
| Plugins.Plugin.DefineCommand | sail/impl/plugin.py:120-141 | the decorator builds the command, adds it to the plugin, and returns it; a validation error changes nothing |
| Plugins.Plugin.Subscribe | sail/impl/plugin.py:143-159 | the listeners change as `SubscribeTo` says, and nothing else |
| Plugins.Plugin.Unsubscribe | sail/impl/plugin.py:161-178 | the listeners change as `UnsubscribeFrom` says, and nothing else |
| Plugins.Plugin.Load | sail/impl/plugin.py:225-246 | the client and manager are recorded and every plugin command is added to the manager in order, stopping at the first error |
| Plugins.Plugin.Unload | sail/impl/plugin.py:248-273 | a different client or manager fails the assertion and changes nothing; otherwise every plugin command is removed, and on success client and manager are cleared |

## Left out

- Decimal parsing: `float()` is modelled only as `[sign]digits[.digits]`, exact as a real; exponents, `inf`/`nan`, underscores and rounding are not modelled, because floating point is out of scope.
- ArgumentParsers.ParseInt: accepts only an optional sign and ASCII digits. Python's `int()` also accepts `_` between digits (`int(" 1_000 ") == 1000`) and non-ASCII decimal digits (`int("١٢") == 12`); the model rejects both, so it raises a `ConversionError` where the source returns a number. Unicode digit classes are not modelled.
- Strings.Lower: ASCII only; the source's `str.lower()` also folds non-ASCII letters. The boolean words are ASCII, so accepting or rejecting a word does not depend on this, but the lower-cased word in the error message may differ.
- `asyncio`: awaits, the event object and its `author`/`content` properties are not modelled. The message content is passed in, and `invoke` stops at the `Context` the callback would be awaited with. The tokenizer's `StopIteration` is modelled as the error `invoke` raises; inside the coroutine `async def invoke`, Python turns it into `RuntimeError("coroutine raised StopIteration")`, and the model does not make that conversion.
- Reflection is not modelled. `inspect.signature` and `Parameter` objects become a list of name/kind/annotation/default records, annotations become a small type-expression datatype, and `get_type_hints` resolution and `eval_str` are not modelled.
- `_get_source_module_name` and the extension machinery are not modelled: the module name is a constructor parameter, and `load_extension`, `unload_extension`, `reload_extension`, `entrypoints` and the module import helpers are left out.
- `listen`: the decorator's signature introspection that finds the event type is not modelled; `subscribe` takes the event type directly.
- Plugins.Plugin.Load: the loop that subscribes each listener to the client's event manager is not modelled, because the event manager is external.
- Plugins.Plugin.Unload: the loop that unsubscribes each listener from the client is not modelled, because the event manager is external; only the command loop and the state reset are.
- `bind_to_event_manager` and `bind_to_app` are not modelled, because they only register `try_invoke` with an external event manager.
- The plugin's `rest` and `event_manager` properties and the read-only copies of `commands`/`listeners` are not modelled, because they delegate to the client or copy state.
- Logging and the `debug` module's prints are not modelled.
- Only `list` and `set` are constructed by the container parsers. Every other collection type is dropped: the builtins `tuple` and `frozenset`, `collections.deque`, and user collection classes. For all of these the model's container parser fails with a conversion error where the source would construct the collection.
- The example strategies `turbofish.py`, `string_parser.py` and `prefix.py`, the demo plugins, `FloatParser` and the protocol classes under `sail/traits` are not part of this model.
- Commands.Command.Invoke: the callback's own behaviour is not modelled; the Context it is called with is returned instead.

## Findings

| source | as written | input that shows it | evidently intended | confidence | as-written member | corrected member |
|---|---|---|---|---|---|---|
| sail/impl/argument_parser.py:68-70 | `NumberParser.parse` returns the default whenever one is given, even after the argument converted successfully | `NumberParser().parse("5", 3)` returns `3` | the default replaces only an argument that is not accepted; `"5"` gives `5`. The corrected parser also changes a second case: a literal that does not convert, given a default, returns the default, where lines 64-66 raise even with one | not executed | ArgumentParsers.NumberDefaultDiscrepancy | ArgumentParsers.ParseNumberIntended |
| sail/impl/signature_parser.py:79-86 | `update_param_typesafe` calls `override_typesafe(container_parser=...)`, but `override_typesafe` (sail/impl/param_info.py:89-101) accepts `container=`, so every call raises `TypeError` after the lookup (and after a positional has already been moved) | `param("verbose", short="v")` on a positional `verbose: bool` raises `TypeError: unexpected keyword argument 'container_parser'` | the container-parser override is forwarded under the `container` keyword (the model stores the container parser in that field), and the parameter becomes the flag `-v` | not executed | Binding.UpdateAsWrittenAlwaysFails | Binding.UpdatePositionalShape |
| sail/impl/plugin.py:113-118 | `remove_command` starts with `isinstance(command, command_trait.Command)`, and `Command` (sail/traits/command_trait.py:18) is a `typing.Protocol` without `@runtime_checkable`, so `isinstance` raises `TypeError` before any lookup | `plugin.remove_command("ping")` on a plugin holding `ping` raises `TypeError: Instance and class checks can only be used with @runtime_checkable protocols` | the command's name, or the string given, is looked up and removed, and a missing name raises `RuntimeError` | not executed | Plugins.RemoveDiscrepancy | Plugins.PluginRemoveEffect |
