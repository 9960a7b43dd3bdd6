# aleph-formatter — a Dafny model of `AlephFormatter`

`AlephFormatter` renders text templates. Free text is copied unchanged. A placeholder
`#{path}` is replaced by the value it names. A path is a head, optionally followed by
`.`-separated member segments. A head that parses as an `int` indexes the positional
arguments. Any other head is looked up among the named arguments. Each segment then calls
a no-argument accessor, trying the getter `getX` when there is no accessor `x`. The
character `` ` `` makes the next character literal. Arrays render as `[a, b, c]`.
Arguments are bound by name through `arg`, `args(Map)` and `args(name, value, ...)`, and
none of these binds a name twice.

The model has five modules:

- `Errors`: the exceptions the formatter throws, as an `Error` datatype, and the
  `Result`, `Option` and `Outcome` wrappers.
- `Values`: bound values (`Null | Int | Str | Arr | Obj`), their natural text, and the
  rendering of arrays (`evaluateIfArray`, `arrayToString`, `clearLastComma`).
  `ArrayToString` is the append-then-trim loop, proved equal to a join by `", "`.
- `Resolver`: path resolution. `PathBuffer` is the mutable path buffer with
  `TakeUntilDotOrEnd`. `ParseInt` models `Integer.parseInt`. `Root` selects the head's
  value, `MemberOrGetter` models `getMethodOrGetter`, and `Chain` models `valueInChain`.
  The methods `ValueInChain` and `AppendParamValue` work on the shared buffer, as the code
  does, and are proved equal to those functions.
- `Scanner`: the state machine of `fmt` (`NextState`, the `JumpFrom*` functions, the
  start/end/escape predicates, `ValidParamChar`). `Step` is one turn of the loop.
  `RunAsWritten` is the loop as `fmt` writes it: `fmt` never resets the path buffer after a
  substitution (line 164), so the buffer is empty afterwards only when the member chain
  consumed the whole path.
  `Run` is the corrected loop, which empties the buffer after each substitution (see
  "## Findings"). `Render` is an independent segment-by-segment reading of a template.
  `RunMatchesRender` proves that the corrected loop and `Render` agree, error for error.
  The scanner takes the path resolver as a parameter.
- `Formatter`: the class `AlephFormatter`. It holds the template, the named arguments and
  the positional arguments. It has the binding methods, specified by `BindEntries` and
  `BindPairs`, and `Fmt`, the imperative loop in its corrected form (the path buffer is
  cleared after each substitution), proved to return
  `Render(template, PathResolver(Arguments(), rt))`. `Fmt` has no `modifies` clause, so
  rendering never changes the bound arguments.

Reflection is modelled by `Runtime.members`, a map from (value, method name) to what
invoking that method does (`Returns(v)` or `Throws`). The `toString` of arrays and
objects is `Runtime.describe`, left uninterpreted.

## Model

| member | source | states |
|---|---|---|
| Scanner.IsParamStart | src/main/java/net/andreinc/aleph/AlephFormatter.java:217-220 | `#` followed by `{`. A `#` that ends the template opens nothing. |
| Scanner.IsParamEnd | src/main/java/net/andreinc/aleph/AlephFormatter.java:222-224 | The character is `}`. |
| Scanner.IsEscapeChar | src/main/java/net/andreinc/aleph/AlephFormatter.java:226-228 | The character is the backquote. |
| Scanner.ValidParamChar | src/main/java/net/andreinc/aleph/AlephFormatter.java:230-233 | A path character is a digit, a letter or `.`. |
| Scanner.JumpFromFreeText | src/main/java/net/andreinc/aleph/AlephFormatter.java:189-195 | In free text, the escape character leads to the escape state. Otherwise `#{` leads to the param-start state, and anything else stays in free text. |
| Scanner.JumpFromParamStart | src/main/java/net/andreinc/aleph/AlephFormatter.java:197-201 | Right after `#{`, `}` ends an empty placeholder, and any other character starts the path. |
| Scanner.JumpFromParam | src/main/java/net/andreinc/aleph/AlephFormatter.java:203-207 | Inside a path, `}` ends the placeholder, and any other character continues the path. |
| Scanner.JumpFromParamEnd | src/main/java/net/andreinc/aleph/AlephFormatter.java:209-215 | After a placeholder, characters are classified exactly as in free text. |
| Scanner.NextState | src/main/java/net/andreinc/aleph/AlephFormatter.java:176-215 | Five if-and-only-if characterisations of the next state. Outside a placeholder, an escape character leads to the escape state and `#{` leads to param-start. Inside, `}` leads to param-end and anything else to param. After an escape, the next state is always free text. |
| Scanner.Step | src/main/java/net/andreinc/aleph/AlephFormatter.java:152-169 | One turn of the fmt loop, as written, always moves forward and never past the end of the template. It only appends to the output. |
| Scanner.StepInside | src/main/java/net/andreinc/aleph/AlephFormatter.java:155-164 | Inside a placeholder, `}` substitutes the collected path. A valid character is appended to the path. An invalid character fails with that character and its index. |
| Scanner.StepOutside | src/main/java/net/andreinc/aleph/AlephFormatter.java:155-166 | Outside a placeholder, an escape character is skipped and `#{` is skipped as a pair. Any other character is copied. |
| Scanner.RunAsWritten | src/main/java/net/andreinc/aleph/AlephFormatter.java:143-172 | The fmt loop exactly as written. The path buffer is not reset after a substitution, so it keeps what the member chain left unconsumed, and is empty only when the chain consumed the whole path. |
| Scanner.RunAsWrittenExtendsOutput | src/main/java/net/andreinc/aleph/AlephFormatter.java:143-172 | The loop as written only ever appends to the output: what it has output so far is a prefix of what it returns. |
| Scanner.Run | src/main/java/net/andreinc/aleph/AlephFormatter.java:143-172 | The corrected fmt loop, which clears the path buffer after each substitution. |
| Scanner.RunExtendsOutput | src/main/java/net/andreinc/aleph/AlephFormatter.java:143-172 | The corrected loop only ever appends to the output: what it has output so far is a prefix of what it returns. |
| Scanner.CloseFrom | src/main/java/net/andreinc/aleph/AlephFormatter.java:203-207 | The first `}` at or after an index, or the end of the template. No `}` lies before it. |
| Scanner.FirstInvalid | src/main/java/net/andreinc/aleph/AlephFormatter.java:230-233 | The first character in a range that a path may not contain. Every character before it is valid, and `None` means all are valid. |
| Scanner.RenderFrom | src/main/java/net/andreinc/aleph/AlephFormatter.java:143-172 | The reference reading from an index. The escape character stands for the next character. `#{` opens a placeholder up to the first `}`, which is validated and then replaced by its value. An unclosed placeholder adds nothing. Any other character stands for itself. |
| Scanner.Render | src/main/java/net/andreinc/aleph/AlephFormatter.java:143-172 | The reference reading of a whole template. |
| Scanner.RunInsidePlaceholder | src/main/java/net/andreinc/aleph/AlephFormatter.java:152-169 | Inside a placeholder, the loop validates every character up to the first `}`, then substitutes the whole path. A placeholder that is never closed contributes nothing. |
| Scanner.RunCollects | src/main/java/net/andreinc/aleph/AlephFormatter.java:162 | A valid character other than `}` inside a placeholder is appended to the path, and the loop goes on in the param state. |
| Scanner.RunAtInvalid | src/main/java/net/andreinc/aleph/AlephFormatter.java:162 | A character a path may not contain stops the loop with that character and its index, which is the first invalid character of the placeholder. |
| Scanner.FinishPlaceholderUnchanged | src/main/java/net/andreinc/aleph/AlephFormatter.java:162 | Collecting one valid character does not change how the rest of the placeholder ends. |
| Scanner.RunAtClose | src/main/java/net/andreinc/aleph/AlephFormatter.java:164 | At the closing bracket, the collected path is substituted, and the loop continues from the param-end state with an empty buffer. |
| Scanner.FinishPlaceholderAdvance | src/main/java/net/andreinc/aleph/AlephFormatter.java:162 | Collecting one valid character moves neither the closing bracket nor the first invalid character. |
| Scanner.RunOutside | src/main/java/net/andreinc/aleph/AlephFormatter.java:152-171 | Outside a placeholder with an empty buffer, the corrected loop (buffer cleared after each substitution) outputs exactly the reference rendering of the rest of the template. |
| Scanner.RunAfterEscape | src/main/java/net/andreinc/aleph/AlephFormatter.java:176-182 | After an escape, the next character is copied literally. An escape at the very end outputs nothing. |
| Scanner.RunPlaceholder | src/main/java/net/andreinc/aleph/AlephFormatter.java:160-164 | From `#{`, the loop outputs the placeholder's value followed by the rendering of the rest, or fails as the reference reading does. |
| Scanner.RunMatchesRender | src/main/java/net/andreinc/aleph/AlephFormatter.java:143-172 | The corrected fmt loop (buffer cleared after each substitution), started at index 0 in free text, gives the segment-by-segment rendering on every template, error for error. The loop as written does not (see "## Findings"). |
| Scanner.RenderFromVerbatim | src/main/java/net/andreinc/aleph/AlephFormatter.java:189-195 | With neither an escape character nor `#{` in the template, rendering from any index copies the rest unchanged. |
| Scanner.RenderVerbatim | src/main/java/net/andreinc/aleph/AlephFormatter.java:189-195 | A template without markup renders to itself. |
| Scanner.EscapeMakesNextLiteral | src/main/java/net/andreinc/aleph/AlephFormatter.java:176-195 | The escape character itself is never output. The character after it is output literally, even `#` or a second escape, and the loop continues in free text after it. |
| Scanner.RenderErrorLocated | src/main/java/net/andreinc/aleph/AlephFormatter.java:230-233 | An invalid-character error carries a character of the template at its own index. That character cannot appear in a path, and it lies inside an open placeholder. |
| Scanner.RenderPlaceholder | src/main/java/net/andreinc/aleph/AlephFormatter.java:160-164 | A well-formed placeholder is replaced by the value of the path between its brackets, or the render fails with the resolver's error. |
| Scanner.RenderLiteralRun | src/main/java/net/andreinc/aleph/AlephFormatter.java:158 | A stretch with neither an escape character nor `#` is copied as it stands. |
| Scanner.EscapedPlaceholderIsLiteral | src/test/java/net/andreinc/aleph/AlephFormatterTest.java:58-63 | `` `#{q},#{q} `` renders as `#{q},` followed by the value of `q`. |
| Scanner.EscapedEscapeIsLiteral | src/test/java/net/andreinc/aleph/AlephFormatterTest.java:65-69 | ``` ``#{q},#{q} ``` renders one backquote, then `q`'s value, a comma, and `q`'s value again. |
| Scanner.TrailingEscapeEmitsNothing | src/test/java/net/andreinc/aleph/AlephFormatterTest.java:77-81 | ``#{q}` `` renders as the value of `q` alone. |
| Scanner.AdjacentPlaceholders | src/main/java/net/andreinc/aleph/AlephFormatter.java:209-215 | `#{a}#{b}` renders as both values, with nothing between them. |
| Scanner.DanglingMarkup | src/main/java/net/andreinc/aleph/AlephFormatter.java:217-220 | A `#` at the end is literal, and a placeholder never closed adds nothing. |
| Scanner.FinalHashIsLiteral | src/main/java/net/andreinc/aleph/AlephFormatter.java:217-220 | A `#` that ends the template, reached outside a placeholder, is copied by both loops and by the reference reading. |
| Scanner.TrailingHashAfterText | src/main/java/net/andreinc/aleph/AlephFormatter.java:217-220 | Plain text followed by a `#` renders to itself. |
| Scanner.InvalidCharacters | src/test/java/net/andreinc/aleph/AlephFormatterTest.java:31-75 | `#{#{}} #{a}` fails on `#` at index 2. `` #{`q}#{q`} `` fails on the backquote at index 2. `#{a b}` fails on the space at index 3. |
| Scanner.AsWrittenAgreesWithoutDots | src/main/java/net/andreinc/aleph/AlephFormatter.java:308-322 | When neither the template nor the buffer contains `.`, every path is consumed whole, and the loop as written behaves exactly as the corrected loop. |
| Scanner.LeftoverTraceAsWritten | src/main/java/net/andreinc/aleph/AlephFormatter.java:146-164 | As written, the rest `b` that `#{a.b}` left unconsumed is prepended to the next path, so `#{c}` looks up `bc`. |
| Scanner.LeftoverTraceCorrected | src/main/java/net/andreinc/aleph/AlephFormatter.java:164 | With the buffer cleared after each substitution, each path of `#{a.b}#{c}` stands alone. |
| Scanner.DashBetweenPlaceholders | src/test/java/net/andreinc/aleph/AlephFormatterTest.java:13-17 | `#{int3}-#{int2}` renders as the two values around a dash. |
| Scanner.SinglePlaceholder | src/main/java/net/andreinc/aleph/AlephFormatter.java:152-169 | A template that is a single placeholder renders as the value of its path, or fails with the resolver's error. |
| Scanner.PlaceholdersAroundText | src/main/java/net/andreinc/aleph/AlephFormatter.java:152-169 | Two placeholders around plain text render as the first value, the text unchanged, then the second value. |
| Scanner.RenderTwoPlaceholders | src/main/java/net/andreinc/aleph/AlephFormatter.java:152-169 | The same, stated by the positions of the brackets in the template. |
| Values.NatText | src/main/java/net/andreinc/aleph/AlephFormatter.java:278 | The decimal text of a natural number is non-empty, made of digits, and has no leading zero. |
| Values.IntText | src/main/java/net/andreinc/aleph/AlephFormatter.java:278 | The text of an int is non-empty. It starts with `-` exactly when the int is negative, and is digits otherwise. |
| Values.Natural | src/main/java/net/andreinc/aleph/AlephFormatter.java:278 | The text `StringBuilder.append` adds: `null` for null, decimal text for an int, the string itself, and `toString` otherwise. |
| Values.Texts | src/main/java/net/andreinc/aleph/AlephFormatter.java:290-291 | One natural text per element, in order. |
| Values.Text | src/main/java/net/andreinc/aleph/AlephFormatter.java:275-285 | Null appends `null`. An array appends its bracketed list. Anything else appends its natural text. |
| Values.LastIndexOf | src/main/java/net/andreinc/aleph/AlephFormatter.java:297 | `lastIndexOf`: either -1 or an occurrence, and no occurrence lies after it. |
| Values.ClearLastComma | src/main/java/net/andreinc/aleph/AlephFormatter.java:296-304 | The result is a prefix of the buffer. It equals the buffer exactly when the buffer holds no `", "`. |
| Values.ClearLastCommaDropsFinalSeparator | src/main/java/net/andreinc/aleph/AlephFormatter.java:296-304 | Trimming a buffer that ends with `", "` removes exactly that separator, whatever the text before it contains. |
| Values.TerminatedIsJoinThenSeparator | src/main/java/net/andreinc/aleph/AlephFormatter.java:290-291 | Appending every part followed by `", "` gives the join of the parts plus one final separator. |
| Values.BufferExtend | src/main/java/net/andreinc/aleph/AlephFormatter.java:290-291 | One turn of the loop keeps the buffer equal to `[` followed by the texts so far, each followed by `", "`. |
| Values.TrimmedBufferIsArrayText | src/main/java/net/andreinc/aleph/AlephFormatter.java:293 | Trimming that buffer and closing the bracket gives the reference list rendering, including `[]` for no elements. |
| Values.ArrayToString | src/main/java/net/andreinc/aleph/AlephFormatter.java:287-294 | The append-then-trim loop returns `[` + the elements' texts joined by `", "` + `]`, and `[]` for an empty array. |
| Values.ArrayTextExamples | src/test/java/net/andreinc/aleph/AlephFormatterTest.java:44-56 | `{1, 3, 4}` renders `[1, 3, 4]`, and the empty array renders `[]`. |
| Resolver.IndexOf | src/main/java/net/andreinc/aleph/AlephFormatter.java:310 | `indexOf`: either -1 when the character does not occur, or its first occurrence. |
| Resolver.SplitHead | src/main/java/net/andreinc/aleph/AlephFormatter.java:308-322 | The head has no `.`. With a dot, the buffer is head + `.` + rest. Without one, the head is the whole buffer and the rest is empty. The rest is shorter than a non-empty buffer. |
| Resolver.PathBuffer.TakeUntilDotOrEnd | src/main/java/net/andreinc/aleph/AlephFormatter.java:308-322 | Returns the head, and leaves in the buffer exactly what follows the first dot. |
| Resolver.PathBuffer.Append | src/main/java/net/andreinc/aleph/AlephFormatter.java:162 | Appends one character to the buffer. |
| Resolver.PathBuffer.Clear | src/main/java/net/andreinc/aleph/AlephFormatter.java:164 | The correction: empties the buffer after a substitution. `fmt` never resets the buffer there, and it is empty afterwards only when the member chain consumed the whole path. |
| Resolver.ParseInt | src/main/java/net/andreinc/aleph/AlephFormatter.java:255 | The result lies in the `int` range. A digit string parses exactly when it is non-empty and its value fits, and then parses to that value. A string with a letter never parses. |
| Resolver.UnsignedOfNatText | src/main/java/net/andreinc/aleph/AlephFormatter.java:255 | The digits of a natural number's decimal text read back as that number. |
| Resolver.ParseIntOfIntText | src/main/java/net/andreinc/aleph/AlephFormatter.java:255 | `parseInt` reads back what `Integer.toString` writes, over the whole `int` range. |
| Resolver.Root | src/main/java/net/andreinc/aleph/AlephFormatter.java:254-264 | A head that parses as an int indexes the positional arguments, and fails with the index when it is out of range. Any other head is looked up by name, and null when unbound. |
| Resolver.PositionalHead | src/main/java/net/andreinc/aleph/AlephFormatter.java:254-260 | A head written as the decimal text of `n` selects positional argument `n`, and fails with that index when there is none. |
| Resolver.NamedHead | src/main/java/net/andreinc/aleph/AlephFormatter.java:261-264 | A head that cannot be an int is a named lookup. It never fails, and it gives null for an unbound name. |
| Resolver.MemberOrGetter | src/main/java/net/andreinc/aleph/AlephFormatter.java:352-369 | An exact accessor wins. Otherwise the getter `get` + capitalised name is used when present. Otherwise the result is missing. An empty name with no exact accessor is the only failure. |
| Resolver.GetterName | src/main/java/net/andreinc/aleph/AlephFormatter.java:360-361 | `get`, the first character upper-cased, then the rest of the name. |
| Resolver.UpperAscii | src/main/java/net/andreinc/aleph/AlephFormatter.java:360 | ASCII upper-casing of one character. |
| Resolver.Chain | src/main/java/net/andreinc/aleph/AlephFormatter.java:326-350 | Only an empty segment fails. What is left unconsumed is a suffix of the buffer. A chain that stops early ends with null. |
| Resolver.ChainFailsSoftly | src/main/java/net/andreinc/aleph/AlephFormatter.java:326-350 | With no empty segment, a member chain always resolves, to null at worst. |
| Resolver.RestHasNoEmptySegment | src/main/java/net/andreinc/aleph/AlephFormatter.java:334 | Cutting off the head keeps "no empty segment". |
| Resolver.HeadOfNoEmptySegment | src/main/java/net/andreinc/aleph/AlephFormatter.java:334 | A buffer with no empty segment has a non-empty head. |
| Resolver.ChainFromNull | src/main/java/net/andreinc/aleph/AlephFormatter.java:330-332 | A null value resolves to null and consumes nothing. |
| Resolver.SingleSegmentChain | src/main/java/net/andreinc/aleph/AlephFormatter.java:339-348 | One segment on a non-null value gives the accessor's result. A missing or throwing accessor gives null. |
| Resolver.ParamValue | src/main/java/net/andreinc/aleph/AlephFormatter.java:242-279 | Resolution fails only with a bad positional index or an empty member name. A path without a dot is consumed whole. |
| Resolver.SimpleNamedPath | src/main/java/net/andreinc/aleph/AlephFormatter.java:261-278 | A dotless named path renders its bound value, or `null` when unbound. |
| Resolver.TrailingDotIgnored | src/main/java/net/andreinc/aleph/AlephFormatter.java:266-276 | A head followed only by a dot renders exactly as the head alone. |
| Resolver.MemberPath | src/main/java/net/andreinc/aleph/AlephFormatter.java:249-279 | A named head followed by segments renders the value the member chain reaches from the head's value. |
| Resolver.ParamValueErrors | src/main/java/net/andreinc/aleph/AlephFormatter.java:254-276 | A path with no two dots in a row fails only with a bad positional index. |
| Resolver.ValueInChain | src/main/java/net/andreinc/aleph/AlephFormatter.java:326-350 | The recursive method on the shared buffer returns the value `Chain` reaches and leaves `Chain`'s leftover in the buffer, or fails as `Chain` does. |
| Resolver.AppendParamValue | src/main/java/net/andreinc/aleph/AlephFormatter.java:242-279 | Returns the text `ParamValue` gives for the buffer and leaves its leftover in the buffer, or fails as `ParamValue` does. |
| Formatter.BindEntries | src/main/java/net/andreinc/aleph/AlephFormatter.java:111-123 | Binding never changes or removes an existing binding. Every new name comes from the entries. A failure names an entry's name. |
| Formatter.EntriesMap | src/main/java/net/andreinc/aleph/AlephFormatter.java:117-123 | Its keys are exactly the entries' names. |
| Formatter.FirstClash | src/main/java/net/andreinc/aleph/AlephFormatter.java:93-96 | The first entry whose name is already bound or repeats an earlier entry's name. |
| Formatter.EntriesMapExtend | src/main/java/net/andreinc/aleph/AlephFormatter.java:120 | Putting one more entry extends the map of the entries before it. |
| Formatter.BindEntriesFrom | src/main/java/net/andreinc/aleph/AlephFormatter.java:117-123 | From any clash-free point, the loop binds up to the first clash and fails exactly there. |
| Formatter.BindEntriesByClash | src/main/java/net/andreinc/aleph/AlephFormatter.java:93-139 | The entries before the first clash, and only those, end up bound. The operation passes exactly when there is no clash, and otherwise fails with the clashing name. The check uses `containsKey`, so a name bound to null also clashes. |
| Formatter.BindFreshEntries | src/main/java/net/andreinc/aleph/AlephFormatter.java:117-123 | Entries with distinct names, none already bound, all bind. |
| Formatter.BindPresentName | src/main/java/net/andreinc/aleph/AlephFormatter.java:93-115 | A name already bound is refused, and the map is unchanged. |
| Formatter.PairEntries | src/main/java/net/andreinc/aleph/AlephFormatter.java:132-136 | The string-named pairs read from the items, in order. The reading stops exactly at the first name that is not a string, or at the end of the items when there is none. |
| Formatter.FirstNonName | src/main/java/net/andreinc/aleph/AlephFormatter.java:133 | The first item in a name position that is not a string. |
| Formatter.BindPairs | src/main/java/net/andreinc/aleph/AlephFormatter.java:125-139 | An odd count fails first. Then the pairs bind in order, stopped by the first name that is not a string or is already bound. |
| Formatter.BindPairsStep | src/main/java/net/andreinc/aleph/AlephFormatter.java:132-136 | One pair: a name that is not a string fails with its position, a bound name fails with that name, and otherwise the pair is bound and the loop moves to the next pair. |
| Formatter.BindPairsKeeps | src/main/java/net/andreinc/aleph/AlephFormatter.java:125-139 | Binding never changes or removes an existing binding. Every new name is a name item. A clash names an item that is there, and a non-string failure points at a name position holding a non-string. |
| Formatter.OddPairsBindNothing | src/main/java/net/andreinc/aleph/AlephFormatter.java:127-128 | An odd number of items fails with that count before anything is bound. |
| Formatter.PairsAgreeWithEntries | src/main/java/net/andreinc/aleph/AlephFormatter.java:125-139 | Name/value items bind as the entries they spell. A name that is not a string then fails the call, unless a duplicate name failed it first. |
| Formatter.PathResolverIsWellBehaved | src/main/java/net/andreinc/aleph/AlephFormatter.java:242-279 | The resolver fmt uses never reports a character error, and consumes every path without a dot. |
| Formatter.FmtErrorLocated | src/main/java/net/andreinc/aleph/AlephFormatter.java:230-233 | An invalid-character failure of fmt on a template names that template's character at its own index, inside an open placeholder. |
| Formatter.AsWrittenAgreesOnPlainPaths | src/main/java/net/andreinc/aleph/AlephFormatter.java:143-172 | On templates without `.`, the loop as written gives the corrected rendering. |
| Formatter.UnboundHeadLeavesRest | src/main/java/net/andreinc/aleph/AlephFormatter.java:326-332 | A head that starts with a letter and is not bound, followed by `.` and any non-empty rest, renders `null` and leaves the whole rest unconsumed. |
| Formatter.LetterPath | src/main/java/net/andreinc/aleph/AlephFormatter.java:254-264 | A dotless path starting with a letter is a named lookup. |
| Formatter.UnboundLetterPath | src/main/java/net/andreinc/aleph/AlephFormatter.java:261-264 | A dotless path that starts with a letter and is not bound renders `null` and consumes the whole path. |
| Formatter.BoundLetterPath | src/main/java/net/andreinc/aleph/AlephFormatter.java:261-278 | A dotless path that starts with a letter and is bound renders the text of its value. |
| Formatter.UnboundDottedPath | src/main/java/net/andreinc/aleph/AlephFormatter.java:326-332 | `a.b` with `a` unbound renders `null` and leaves `b` in the buffer. |
| Formatter.EmptyNamePath | src/main/java/net/andreinc/aleph/AlephFormatter.java:254-264 | `#{}` does not parse as an int. It looks up the empty name, and renders `null` when that name is unbound. |
| Formatter.LeftoverPaths | src/main/java/net/andreinc/aleph/AlephFormatter.java:242-279 | The three paths involved in the finding resolve as described there. |
| Formatter.AsWrittenCarriesLeftover | src/main/java/net/andreinc/aleph/AlephFormatter.java:143-172 | The finding: with `c` bound to "C", `#{a.b}#{c}` gives `nullnull` as written and `nullC` corrected. |
| Formatter.NamedIntegerPaths | src/main/java/net/andreinc/aleph/AlephFormatter.java:261-278 | Named integers render as their decimal text. |
| Formatter.NamedArgumentsExample | src/test/java/net/andreinc/aleph/AlephFormatterTest.java:13-17 | `#{int3}-#{int2}` with 5 and 7 renders `5-7`. |
| Formatter.NullAndEmptyNameExample | src/test/java/net/andreinc/aleph/AlephFormatterTest.java:19-29 | A name bound to null renders `null`, and `#{}` looks up the empty name. |
| Formatter.PositionalExample | src/main/java/net/andreinc/aleph/AlephFormatter.java:254-260 | `#{1}` selects the second positional argument. `#{2}` with two arguments fails with index 2. |
| Formatter.GetterChain | src/test/java/net/andreinc/aleph/AlephFormatterTest.java:83-95 | The segments `name` and `getName` reach the same getter. |
| Formatter.AlephFormatter.Of | src/main/java/net/andreinc/aleph/AlephFormatter.java:61-67 | A template with no arguments. |
| Formatter.AlephFormatter.OfPositional | src/main/java/net/andreinc/aleph/AlephFormatter.java:69-75 | A template whose arguments are all positional. |
| Formatter.AlephFormatter.OfNamed | src/main/java/net/andreinc/aleph/AlephFormatter.java:77-79 | A template bound to exactly the entries of a map. |
| Formatter.AlephFormatter.FailIfArgExists | src/main/java/net/andreinc/aleph/AlephFormatter.java:93-96 | Fails, with the name, exactly when the name is already bound, even when it is bound to null. |
| Formatter.AlephFormatter.Arg | src/main/java/net/andreinc/aleph/AlephFormatter.java:111-115 | The new arguments and outcome are those of `BindEntries` on the single entry. |
| Formatter.AlephFormatter.ArgsFromMap | src/main/java/net/andreinc/aleph/AlephFormatter.java:117-123 | The loop leaves the arguments and outcome that `BindEntries` specifies. |
| Formatter.AlephFormatter.ArgsFromPairs | src/main/java/net/andreinc/aleph/AlephFormatter.java:125-139 | The loop leaves the arguments and outcome that `BindPairs` specifies. |
| Formatter.FmtTurn | src/main/java/net/andreinc/aleph/AlephFormatter.java:153-168 | One pass of the loop body: the outcome is the turn of the corrected loop (`Scanner.Step` then `Scanner.Settle`). Free text is copied, `#{` advances two characters, a path character is validated and collected, a closing brace appends the path's value and leaves the buffer empty, and an invalid character or a failed path yields that error. |
| Formatter.AlephFormatter.Fmt | src/main/java/net/andreinc/aleph/AlephFormatter.java:143-172 | The loop in its corrected form, with the path buffer cleared after each substitution, returns the reference rendering of the template against the current arguments. It changes no field. |

## Left out

- File loading (`file(...)`, `readFromFile`, lines 81-91 and 98-109) is I/O and is not modelled.
- Reflection is abstracted. `Runtime.members` says which no-argument public methods a value has and what invoking each does. `toString` of arrays and objects (`Runtime.describe`) is uninterpreted.
- `IllegalAccessException` and `InvocationTargetException` are both modelled as `Throws`.
- Values.IsDigit, Values.IsLetter, Resolver.UpperAscii and Resolver.ParseInt approximate `Character.isDigit`, `Character.isLetter`, `String.toUpperCase` and `Integer.parseInt` over ASCII. Non-ASCII digits and letters are treated as invalid.
- Error messages of `UncheckedFormatterException` are not modelled. Only the failure kind and its data are: the character and index, the positional index, the name, the item count.
- The `default` branch of `nextState` (line 184) cannot be reached, because the state is an enumeration.
- The null check on the buffer at lines 244-245 cannot be reached, because `fmt` always passes its own buffer.
- `str(str, Object...)` with a null array leaves the positional list empty. The model takes the positional arguments as a sequence.
- Formatter.AlephFormatter.Arg, Formatter.AlephFormatter.ArgsFromMap, Formatter.AlephFormatter.FailIfArgExists, Formatter.BindPairs, Formatter.AlephFormatter.ArgsFromPairs: the model's name map has only string keys. So `arg(null, v)`, which Java accepts through `containsKey(null)` and `put(null, v)`, and `args(Map)` given a map with a null key cannot be expressed at all. When a name position holds a null item, Java casts it to a `null` String, binds the value under the `null` key and goes on. The model fails the call there with `NameNotAString`, as it does for any other non-string name. So the pairs after a null name stay unbound, and the call fails where Java's passes. For example, with items `"x", 1, null, 2, "y", 3`, Java binds `x`, `null` and `y`, and a later `#{y}` renders `3`. The model binds only `x`, so `#{y}` renders `null`. Java also refuses a second null name as a duplicate, and the model does not capture that either.
- Formatter.AlephFormatter.ArgsFromMap: `HashMap` iteration order is unspecified. The entries are taken as a sequence with distinct names in one such order.
- Templates are sequences of Unicode scalar values, while Java's `charAt` and the index in `InvalidCharacterInParam` count UTF-16 code units. After a character outside the Basic Multilingual Plane, the model's error indices are smaller than Java's. For such a character inside a placeholder, Java reports its high surrogate, where the model reports the whole character.
- Accessors are modelled as deterministic and free of side effects: `Runtime.members` is a fixed table. Reflective getters may change state or return different results on different calls, and the model does not capture that.
- Integers are unbounded except where the source depends on `int` width, which is `parseInt`'s range `MIN_INT..MAX_INT`.
- `MicroBenchmark.java` and the `examples/` directory (`FormatterTest`, `Student`) are not part of this model.
- The test file comes from another revision, with `template(...)` and trailing name/value items in `str`/`template`. It is used only as evidence for scanning and rendering. The concrete cases are stated on `Render` or `ParamValue`.
- Formatter.GetterChain: the getter cases are stated on the member chain, not on a whole template.

## Findings

| source | as written | input that shows it | evidently intended | confidence | as-written member | corrected member |
|---|---|---|---|---|---|---|
| src/main/java/net/andreinc/aleph/AlephFormatter.java:143-172 | `fmt` never resets its path buffer after a substitution (line 164). The buffer is empty afterwards only when the member chain consumed the whole path. A member chain that stops early (null value, missing accessor, throwing accessor) leaves the unconsumed segments in the buffer, and they are prepended to the next placeholder's path. | `#{a.b}#{c}` with `a` unbound and `c` bound to "C" renders `nullnull` | each placeholder resolves its own path: `nullC` | not executed | Scanner.RunAsWritten, Formatter.AsWrittenCarriesLeftover | Scanner.Run, Scanner.Render, Formatter.AlephFormatter.Fmt |
