# Leme

A model of the library-free logic of the Leme compositor, and proofs about it:

- the configuration language: a lexer, a recursive parser and a template expander
  (`Scfg`, `CStrings`, `Source`, `Lexer`, `Parser`, `Recovery`, `RoundTrip`, `Trails`, `Decimals`, `Fields`,
  `Templates`, `Expander`);
- key binding groups that inherit from each other (`Binds`);
- suggestions for misspelt keys (`EditDistance`);
- the placement of outputs next to each other (`Placement`, `Ints`);
- the control interface: a JSON writer, a line protocol over byte chunks and partial sends
  (`Json`, `JsonReader`, `Ipc`);
- animations: a manager that is re-entered from its own callbacks, easing curves, and the
  cropping and fading of scene leaves during a workspace transition (`Animation`, `Callbacks`,
  `Easing`, `Forms`, `Transforms`, `Effect`);
- floating boxes that are clamped, carried between areas and centred (`Policy`);
- swipe gestures (`Swipe`, `Gesture`).

`Options`, `Seqs`, `Ints` and `Reals` hold what several of these share.

## How it is written

Code that changes things in place is imperative here too: the lexer, the parser, the
expander, the binding scope, the trail table, the JSON writer, the socket buffers, the
animation manager, the scene nodes, the sample ring and the gesture are classes, and loops
over arrays are loops over arrays. Each method is proved to compute a function of its input
or of the old state, and what the source promises is proved about those functions.

- *Parsing.* `Lexer.Tokenizes` and `Parser.Reads` are the grammar, written without reference
  to the programs: a text splits into lexemes separated by blanks and comments, and the
  lexemes derive a tree. `Parser.Parse` returns true exactly for such texts, and its tree is
  the only one.
- *Templates.* `Templates.BlockMeaning` is what a block of directives means: a function of an
  environment, with no state, no budgets and no failure other than being undefined. It also
  says how many levels, rounds and directives the meaning takes. `Expander.ExpandTemplates`
  succeeds exactly when the file has a meaning and the meaning fits the budgets; its output
  is then that meaning. Every call of the mutual recursion gives back the bindings and the
  active trail it was given, also when it fails.
- *Bindings.* `Binds.WellFormed` and `Binds.Provides` are about paths in the graph of groups.
  The memoised search succeeds exactly on well-formed groups, and gives each key the one
  origin that provides it.
- *Placement.* `Placement.Anchored` is a chain of references that ends at an explicit position.
  Where an output ends up is said of the boxes on the screen (`Placement.Beside`,
  `Placement.ShareAPixel`).
- *Streams.* `Ipc.Feed` handles one byte; chunks, lines and messages are related to it.
- *Animations.* `Animation.Books` says where every animation ever started is. `Animation.World`
  is the list with everything that has happened: what was started, completed and cancelled, and
  a log of the operations performed. Each method of the manager computes a function of it, callbacks
  included, and `Callbacks` proves about these functions that no callback is lost or called twice.

A `string` is a C byte buffer, one `char` a byte; a C string ends at its first NUL, which is
modelled where the source hands a buffer on as a C string. Integers are unbounded except
where the source saturates or wraps: 32-bit saturation is `Ints.Saturate`, unsigned 32-bit
subtraction is `Swipe.Age`, the overflow checks of range bounds are in `Fields.ParseNumber`.
A `double` is an exact real. Allocation succeeds. `getenv`, the clock, sockets, callbacks and
the state of other components are parameters: a map, the set of animations whose time is
over, a script of answers, a finite tree of operations, and arguments.

## Where code and documentation differ

The model follows the code.

- `docs/configuration/syntax-and-variables.md:14-19` says that every syntax error is reported;
  only the first 20 are kept (`Scfg.Report.Add`).
- `docs/configuration/keybindings.md:73` says that a direct binding overrides an inherited one.
  Parents are merged first, so two parents that disagree on a key are an error even if the
  group binds the key itself (`Binds.OwnBindingDoesNotSettleConflict`).
- `docs/configuration/keybindings.md:78` says that inheritance cycles are errors; groups that no
  mode reaches are never looked at (`Binds.BindScope.ResolveModes`).

Some claims that suggest themselves are false. Each has a lemma with an input that fails, and
the exact condition in terms of the input:

- A box that is carried to a larger area and back need not return: it does exactly when
  `Policy.Returns` holds for both axes (`Policy.ReanchorRoundTrip`). An area past the largest
  coordinate can lose a box (`Policy.ReturnCanFail`).
- A centred box need not have equal margins: they are equal up to a pixel exactly unless the
  saturation of the centre interferes (`Policy.CenterBalances`, `Policy.CenteringCanFail`).
- A cropped leaf need not show its part of the viewport: it does exactly unless its new position
  saturates (`Effect.ShowsExactly`, `Effect.CroppingCanSaturate`).
- The configuration does not bound the vertical handles of an easing curve. The curve stays in
  [0, 1] exactly when `Easing.Curve.Inside` holds, and never goes back exactly when
  `Easing.Curve.Rises` does; both compare polynomials in the handles (`Easing.InsideExactly`,
  `Easing.RisesExactly`). A curve that the configuration accepts can fail both
  (`Easing.HandlesMatter`). The eased values are the heights of the curve at midpoints of the
  bisection, so the conditions carry over to them in one direction.
- A swipe that is released further on can lead less far. The thresholds with which it never does
  are exactly those up to one half, which is the default (`Swipe.LandingRisesExactly`,
  `Swipe.LandingCanFall`).
- Two passes of the template expander are not one. The output of the first is left as it is
  exactly when it is literal (`Templates.UnchangedExactly`, `Templates.ExpansionIsNotIdempotent`).
- An output that falls back to the right can overlap another (`Placement.FallbackCanOverlap`).
  It does not if all sizes are positive and fit next to the explicit positions within 32 bits
  (`Placement.RoomyFits`); on the final boxes the exact condition is that one of the two has no
  size or no 32-bit edge (`Placement.FallbackOverlapsExactly`).
- An output with a relation need not stand beside its reference: it does exactly when the coordinate
  it needs is a 32-bit one (`Placement.BesideExactly`), which is always so where everything fits
  (`Placement.RoomyIsBeside`).
- The walk of an animation frame does not survive every apply callback. A step survives exactly
  when the animation that the walk has saved is still live (`Animation.Manager.Step`), which
  `Animation.Sparing` guarantees for the whole walk before it starts.

## Model

| member | source | states |
|---|---|---|
| `CStrings.CStringExact` | src/config/scfg_parse.c:45-72 | a buffer that is copied as a C string is cut at its first NUL and only there |
| `Scfg.Report.Add` | src/config/scfg_lex.c:55-94 | every error is counted in order; the first 20 are kept and the rest only set the truncation flag |
| `Source.SourceText.constructor` | src/config/scfg_source.c:6-30 | the table has one entry for each line, and entry k is where the line after k newlines starts |
| `Source.TableEntryIsLineStart` | src/config/scfg_source.c:6-30 | the entry of the line that holds an offset is the start of that line, also for offsets past the end |
| `Source.SourceText.Locate` | src/config/scfg_source.c:71-88 | the binary search returns one plus the newlines before the offset, and the distance to the last of them |
| `Source.SourceText.LineText` | src/config/scfg_source.c:90-106 | a line is returned exactly when it exists; its text is between two newlines and has none |
| `Lexer.Scanner.SkipLine` | src/config/scfg_lex.c:110-115 | the index moves to the end of the line and no further |
| `Lexer.Scanner.LexAtom` | src/config/scfg_lex.c:128-183 | an unquoted word, or one error and the rest of the line skipped, as the scan function says |
| `Lexer.Scanner.LexQuoted` | src/config/scfg_lex.c:185-227 | a quoted word up to its closing quote with escapes decoded in double quotes, or one error at the opening quote |
| `Lexer.Scanner.LexNext` | src/config/scfg_lex.c:229-278 | each round makes progress and only adds to the tokens and the errors |
| `Lexer.Scanner.Lex` | src/config/scfg_lex.c:229-278 | tokens and errors are those of the whole text; true exactly when there was no error |
| `Lexer.WordExact` | src/config/scfg_lex.c:128-227 | a scan is error-free with an end and a value exactly when the bytes up to there are one lexeme and the value is its decoding |
| `Lexer.LexSound` | src/config/scfg_lex.c:229-278 | after an error-free lex the text is its lexemes separated by blanks and comments |
| `Lexer.LexComplete` | src/config/scfg_lex.c:229-278 | every splitting of a text into lexemes is the one the lexer finds, so there is at most one |
| `Lexer.LexExact` | src/config/scfg_lex.c:229-278 | the lexer returns a token list without error exactly when that list is the splitting of the text |
| `Lexer.LexShape` | src/config/scfg_lex.c:96-278 | even after errors, spans are in bounds, ordered and disjoint, and only the last token is END |
| `Parser.TokenParser.Skip` | src/config/scfg_parse.c:74-90 | skipping ends right after the matching close or at END |
| `Parser.TokenParser.EndOfDirective` | src/config/scfg_parse.c:92-104 | the span of a directive ends with its last token |
| `Parser.TokenParser.ReadDirective` | src/config/scfg_parse.c:106-168 | name, parameters, block, line and spans are those of the functional parse, and so are the errors |
| `Parser.TokenParser.ReadBody` | src/config/scfg_parse.c:132-153 | a block is parsed one level deeper, or skipped with an error at depth 64 |
| `Parser.TokenParser.ReadBlock` | src/config/scfg_parse.c:170-209 | the loop over entries stops on every token list and computes the functional parse |
| `Parser.BlockSound` | src/config/scfg_parse.c:170-209 | a parse without error is a derivation with the nesting limit kept |
| `Parser.BlockComplete` | src/config/scfg_parse.c:170-209 | every derivation within the nesting limit is found, without an error |
| `Parser.DirectiveSound` | src/config/scfg_parse.c:106-168 | the same for one directive: the tree that is built is what the grammar derives |
| `Parser.DirectiveComplete` | src/config/scfg_parse.c:106-168 | the same for one directive: what the grammar derives is what is built |
| `Parser.ParseExact` | src/config/scfg_parse.c:106-209 | no error and a tree exactly when the tokens derive that tree with fewer than 64 levels |
| `Parser.FileExact` | src/config/scfg_parse.c:211-232 | lexing and parsing report nothing and give a tree exactly when the text is a configuration of that tree |
| `Parser.Parse` | src/config/scfg_parse.c:211-232 | true exactly when the text is a configuration, whatever the error cap cut off; the block is then its tree |
| `Parser.DerivationSpansNest` | src/config/scfg_parse.c:92-104 | spans of siblings are ordered and disjoint, and children lie behind the words of their parent and inside its span |
| `Parser.ConfigurationSpansNest` | src/config/scfg_parse.c:160-166 | the spans of every tree that is read nest within the text |
| `Recovery.SkipIsBalanced` | src/config/scfg_parse.c:74-90 | skipping ends at the first place where every block that was open is closed, or at the end of the input with some still open |
| `Recovery.BlockEndsAtItsBrace` | src/config/scfg_parse.c:170-209 | whatever errors it holds, a block ends at the brace that matches its own, and counts as closed exactly when there is one |
| `Recovery.ErrorsAreTrue` | src/config/scfg_parse.c:132-205 | every error of the parser is about a token of which it is true; a block that is said never to be closed has no matching brace in the rest of the file |
| `RoundTrip.LexRender` | src/config/scfg_lex.c:185-278 | the double-quoted rendering of a tree lexes to the words, braces and newlines of the tree |
| `RoundTrip.BlockPiecesDerive` | src/config/scfg_parse.c:106-209 | those tokens derive a tree with the same names, parameters, blocks and children |
| `RoundTrip.RoundTrip` | src/config/scfg_parse.c:211-232 | a tree within the depth limit whose strings have no newline and no NUL is read back from its rendering, with no error, and as no other tree |
| `Trails.TrailTable.Push` | src/config/expand.c:54-112 | parents stay below their children, the index is valid even when the table is full, and until then the chain of the new index is the frame on the chain of its parent |
| `Trails.TrailTable.Get` | src/config/expand.c:114-120 | a node is found exactly for the indices that have one |
| `Trails.ChainStable` | src/config/expand.c:54-112 | growing the table never changes the chain of an index |
| `Trails.RenderCompact` | src/config/render.c:427-460 | the walk stops and prints the chain, innermost construct first |
| `Trails.CompactJoins` | src/config/render.c:433-460 | the pieces stand in the order of the chain, with a comma before each but the first |
| `Trails.FormatIterations` | src/config/render.c:32-70 | the values of the iterations in quotes, with commas between them and "and" before the last |
| `Trails.ListedPair` | src/config/render.c:44-61 | two values have "and" between them |
| `Trails.ListedMany` | src/config/render.c:44-61 | more than two have commas between them and ", and " before the last |
| `Trails.RenderNotes` | src/config/render.c:315-363 | the walk stops and prints one note for each construct; the first one names the single iteration of the diagnostic by its own node, or lists the values of several |
| `Fields.Lookup` | src/config/expand.c:163-175 | the newest binding of a name wins, and none is found exactly when there is none |
| `Fields.IsValidIdentifier` | src/config/expand.c:146-161 | true exactly for a letter or underscore followed by letters, digits and underscores |
| `Fields.PlainField` | src/config/expand.c:194-389 | a field without a dollar sign expands to itself |
| `Fields.EscapedField` | src/config/expand.c:194-389 | doubling every dollar sign keeps any text from being expanded |
| `Fields.VariableReference` | src/config/expand.c:194-389 | a reference with or without parentheses expands to the value of the variable and is undefined without one |
| `Fields.ReferenceInText` | src/config/expand.c:194-389 | a reference stands for the value of its variable wherever it is in a text: the text after it is expanded from right behind it |
| `Fields.EnvironmentReference` | src/config/expand.c:231-320 | a value that the process has comes before one of the file, empty ones count as unset, and without either the reference stands for "none" |
| `Fields.ParseNumber` | src/config/expand.c:405-442 | a bound is accepted exactly when it is decimal digits below 2^64, and is then their value |
| `Fields.ParseRange` | src/config/expand.c:391-449 | a range is accepted exactly when it is two such bounds in order around the only two dots |
| `Fields.RangeRoundTrip` | src/config/expand.c:391-449 | a range printed in decimal is read back exactly when its bounds fit in 64 bits and are in order |
| `Decimals.DecimalRoundTrip` | src/config/expand.c:573-579 | the value of the digits printed for a loop value is that value |
| `Decimals.Ten` | src/config/expand.c:573-579 | ten is the first number of two digits, and they are read in base ten |
| `Decimals.NoLeadingZero` | src/ipc/json.c:157-169 | printed numbers have no leading zero |
| `Templates.FitsThen` | src/config/expand.c:501-908 | two outcomes fit the budgets together exactly when the second fits in what the first leaves |
| `Templates.PlainIsUnchanged` | src/config/expand.c:858-908 | a configuration without templates is left as it is and uses no levels and no rounds |
| `Templates.UnchangedExactly` | src/config/expand.c:858-908 | a file is left as it is, entering no loop and no branch, exactly when it has no control name and every word expands to itself without any variable; so this is when a second pass leaves the output of a first as it is |
| `Templates.BlockConcat` | src/config/expand.c:858-908 | a block means what its parts mean one after the other, unless the cut separates an else from its if |
| `Templates.ForEachConcat` | src/config/expand.c:501-668 | a loop over two runs of values is the two loops in turn |
| `Templates.LoopVariableShadows` | src/config/expand.c:451-491 | a loop variable hides an outer variable of its name from the body |
| `Templates.RangeTextCounts` | src/config/expand.c:542-579 | a text of two bounds in order, however they are written, is a loop over as many values as there are numbers from the first to the second, and value k is digits for the first bound plus k |
| `Templates.RangeLoopCounts` | src/config/expand.c:501-606 | a file "for x in low..high { $x }" comes out as the numbers from low to high, in order, each under its own round; it takes as many rounds |
| `Templates.ListLoopItems` | src/config/expand.c:607-664 | a loop over a list of the file comes out as the items of the list, in order |
| `Templates.PlainIfChooses` | src/config/expand.c:670-777 | which of two blocks comes out of an if with an else, for both operators and all plain texts, and the branch its trail names |
| `Templates.VarsInOrder` | src/config/expand.c:910-1006 | the last variable of a block has the value of its text among the variables before it, and must not be one of them |
| `Templates.VarsAnywhere` | src/config/expand.c:910-1006 | the one block of variables holds for the whole file, wherever it stands in it |
| `Templates.ListsInOrder` | src/config/expand.c:1008-1122 | the last list of a block has the values of its texts among the variables, and must not be one of the lists before it |
| `Templates.UntakenBranchIsUnchecked` | src/config/expand.c:670-777 | wherever an if stands in a block, the block means the same with anything else in the branch that is not taken |
| `Templates.ControlNamesAreNotExpanded` | src/config/expand.c:867-902 | a name that only expands to a control name is copied like any other |
| `Templates.ExpansionIsNotIdempotent` | src/config/expand.c:867-902 | for every control name there is an input whose output holds it as a plain directive and has no meaning itself |
| `Templates.BareControlFails` | src/config/expand.c:858-908 | a bare control name has no meaning |
| `Expander.MatchesStable` | src/config/expand.c:54-112 | an output tree goes on matching its meaning while the trail table grows |
| `Expander.RanThen` | src/config/expand.c:858-908 | two runs one after the other are a run of the sequence, within the budgets that are left |
| `Expander.RanFails` | src/config/expand.c:858-908 | failing in the middle fails the sequence, with bindings and trail given back |
| `Expander.AroundRan` | src/config/expand.c:580-605 | a run between pushing and popping a frame is a run of the construct, one level deeper and one round more |
| `Expander.CopyRan` | src/config/expand.c:779-856 | a run on the children makes the run of the directive, one directive more and with the active trail |
| `Expander.Expander.ExpandField` | src/config/expand.c:194-389 | the buffer ends as the meaning of the field in the environment of the bindings, or it fails where there is none |
| `Expander.Expander.ExpandReference` | src/config/expand.c:209-380 | the branches at a dollar sign: escape, parentheses, environment and variable |
| `Expander.Expander.FindList` | src/config/expand.c:1124-1134 | the first list of a name is found, and none exactly when there is none |
| `Expander.Expander.ExpandFor` | src/config/expand.c:501-668 | a loop is the run of its meaning |
| `Expander.Expander.ExpandRange` | src/config/expand.c:542-606 | a range loop counts without overflow over the values of the range |
| `Expander.Expander.ExpandList` | src/config/expand.c:607-664 | a list loop runs over the items of the list |
| `Expander.Expander.ExpandRound` | src/config/expand.c:580-605 | a round binds the variable, runs the body one level deeper, and takes the variable and the trail away again |
| `Expander.Expander.ReadIf` | src/config/expand.c:670-735 | the header of an if and of its else is accepted, and the branch chosen, as the meaning says |
| `Expander.Expander.ExpandIf` | src/config/expand.c:670-777 | only the branch taken is run, under a frame of its own; the else is consumed either way |
| `Expander.Expander.CloneDirective` | src/config/expand.c:779-856 | a directive is copied with its words expanded, its children expanded and its trail set, in the order in which the budget is charged |
| `Expander.Expander.ExpandBlock` | src/config/expand.c:858-908 | a block is the run of its meaning: success exactly when it exists and fits, the output appended, the bindings and the trail restored |
| `Expander.Expander.CollectVars` | src/config/expand.c:910-1006 | the bindings become the one vars block of the file, each value seeing the ones before it; it fails as the meaning does |
| `Expander.Expander.CollectLists` | src/config/expand.c:1008-1122 | the lists become those of the one lists block of the file; it fails as the meaning does |
| `Expander.ExpandTemplates` | src/config/expand.c:1168-1224 | success exactly when the file has a meaning that fits 16 levels, 1024 rounds a loop, 65536 rounds and 8192 directives; the output is that meaning and each trail lists the enclosing constructs while the table is not full |
| `Binds.AppendInherited` | src/config/parse.c:3716-3760 | merging a parent succeeds exactly when no key has two origins, and the result has the origins of both |
| `Binds.AppendOwn` | src/config/parse.c:3812-3817 | the own bindings never fail and take their keys over |
| `Binds.MeaningSound` | src/config/parse.c:3762-3820 | if resolving a group succeeds, everything it reaches exists, is acyclic, is no mode and agrees on every key, and each key has the one origin that provides it |
| `Binds.MeaningComplete` | src/config/parse.c:3762-3820 | on such a group resolving succeeds, diamonds included |
| `Binds.MeaningUnique` | src/config/parse.c:3768-3770 | the result does not depend on the groups that are being resolved around it, which is why it can be kept |
| `Binds.BindScope.FindGroup` | src/config/parse.c:3511-3521 | the first group of a name, and none exactly when there is none |
| `Binds.BindScope.AppendTo` | src/config/parse.c:3716-3760 | in place, one entry is added, replaced or refused, and no other group changes |
| `Binds.BindScope.Resolve` | src/config/parse.c:3762-3820 | the memoised search stops on every graph, agrees with the meaning, and leaves resolved groups resolved |
| `Binds.BindScope.ResolveParents` | src/config/parse.c:3777-3811 | parents are appended in order; a missing one, a mode, a cycle or a conflict fails |
| `Binds.BindScope.Materialize` | src/config/parse.c:3822-3876 | a mode with bindings that keeps Escape needs a binding that leaves it; an empty mode is not checked |
| `Binds.BindScope.ResolveModes` | src/config/parse.c:3878-3896 | success exactly when every mode comes out; groups that no mode reaches are not looked at |
| `Binds.ModeExact` | src/config/parse.c:3878-3896 | a mode comes out exactly when what it reaches is well formed and it keeps an exit; its keys are distinct and each is bound by the group that provides it |
| `Binds.RefusedExactly` | src/config/parse.c:3822-3876 | of groups whose own keys are distinct a well-formed mode is refused exactly when some key reaches it, Escape does not leave it, and no binding that reaches it switches the mode |
| `Binds.OwnBindingDoesNotSettleConflict` | src/config/parse.c:3777-3817 | two parents that disagree on a key fail even if the group binds the key itself |
| `Binds.IsDuplicate` | src/config/parse.c:3680-3686 | true exactly when the block has bound the key already |
| `Binds.ReadBindings` | src/config/parse.c:3653-3711 | the bindings kept have distinct keys, come from entries in order, and include the first valid entry of every key |
| `EditDistance.DistanceIsLeast` | src/config/parse.c:31-62 | some script of single-byte edits is as short as the distance, and none is shorter |
| `EditDistance.ScriptCost` | src/config/parse.c:31-62 | no script that turns one text into another is shorter than the distance |
| `EditDistance.ShortestScript` | src/config/parse.c:31-62 | a script of that length exists, for every pair of prefixes |
| `EditDistance.Triangle` | src/config/parse.c:31-62 | the triangle inequality, cell by cell |
| `EditDistance.EditCost` | src/config/parse.c:31-62 | one edit is at a distance of at most one |
| `EditDistance.NextRow` | src/config/parse.c:42-59 | the inner loop turns a row of the table into the next, in place |
| `EditDistance.ComputeDistance` | src/config/parse.c:31-62 | the one-row program returns the distance between the two 64-byte prefixes |
| `EditDistance.NearestKey` | src/config/parse.c:64-88 | the earliest key of least distance within the limit, and none exactly when no key is within it |
| `Placement.Sweep` | src/output/placement.c:112-120 | one round keeps what is placed, places only what follows something placed, and reports no progress exactly when nothing more can be |
| `Placement.ResolveRelative` | src/output/placement.c:57-74 | an output is put next to the first output of that name that is placed, and nothing changes exactly when none is |
| `Placement.SettledIsComplete` | src/output/placement.c:111-121 | when a round places nothing, every output whose chain reaches a position is placed |
| `Placement.RightEdge` | src/output/placement.c:76-95 | the greatest right edge of the placed outputs, saturated, and not below zero |
| `Placement.FallBack` | src/output/placement.c:123-131 | the rest goes to the right of everything that stands, in order, and nothing else moves |
| `Placement.Resolve` | src/output/placement.c:97-132 | every output ends placed: by its position, next to its reference, or, exactly when no chain reaches a position, on the right |
| `Placement.RelationHolds` | src/output/placement.c:29-74 | with distinct names an output has its place from the final place of its one reference, without saturation where everything fits |
| `Placement.BesideExactly` | src/output/placement.c:29-74 | on the final boxes the edges meet on the side that was asked for and the other coordinate is equal, exactly when the coordinate needed is a 32-bit one |
| `Placement.BesideIsApart` | src/output/placement.c:29-55 | boxes that are beside each other share no pixel |
| `Placement.RoomyIsBeside` | src/output/placement.c:29-132 | with positive sizes that fit, every output with a relation is beside its reference and does not overlap it |
| `Placement.FallbackTouches` | src/output/placement.c:76-131 | an output that nothing anchors is at the top, right of everything anchored and of what fell back before it, and touches one of them or the origin |
| `Placement.OverlapExactly` | src/output/output.c:410-464 | boxes with proper edges overlap exactly when they share a pixel |
| `Placement.FallbackOverlapsExactly` | src/output/output.c:410-464 | an output that fell back overlaps another only when one of the two has no size or an edge beyond 32 bits |
| `Placement.RoomyFits` | src/output/placement.c:97-132 | with positive sizes that fit next to the explicit positions within 32 bits, every output ends with proper edges and one that fell back overlaps no other |
| `Placement.FallbackCanOverlap` | src/output/placement.c:76-95 | next to an output at the largest coordinate the fallback lands on that output |
| `Json.Writer.Reserve` | src/ipc/json.c:8-40 | the capacity doubles until the text fits, and it fails only when no doubling can |
| `Json.Writer.Separate` | src/ipc/json.c:52-56 | a comma is written exactly when one is due |
| `Json.Writer.RawString` | src/ipc/json.c:87-132 | the quoted and escaped text of the C string |
| `Json.Writer.Key` | src/ipc/json.c:134-139 | comma, quoted key and colon, and no comma due before the value |
| `Json.Writer.Number` | src/ipc/json.c:157-169 | the decimal text of an integer |
| `JsonReader.WriteValue` | src/ipc/json.c:65-175 | the calls that walk a value write its text after the comma that is due; they fail only on a text of some 2^63 bytes |
| `JsonReader.ReadPrinted` | src/ipc/json.c:65-175 | a reader of sections 4 to 7 of RFC 8259 decodes the text of a value, whatever follows it |
| `JsonReader.ReadEscaped` | src/ipc/json.c:87-132 | a reader of section 7 of RFC 8259 takes an escaped string back |
| `JsonReader.WritingIsInvertible` | src/ipc/json.c:65-175 | the whole text of every value decodes to that value |
| `JsonReader.PrintNoControl` | src/ipc/json.c:87-132 | the text of a value holds no byte below 0x20, so no newline |
| `Ipc.Reader.Receive` | src/ipc/ipc.c:463-482 | the byte loop over a chunk computes the framing function; at most 1024 bytes are held |
| `Ipc.Reader.Dispatch` | src/ipc/ipc.c:466-473 | a line is terminated in place and handed over as the C string it is |
| `Ipc.SplittingIsInvisible` | src/ipc/ipc.c:439-484 | the requests and the fate of the client depend only on the bytes, not on how they are received |
| `Ipc.StreamIsByLines` | src/ipc/ipc.c:463-482 | the requests are the lines of the stream up to the first that is too long or refused |
| `Ipc.Sender.Flush` | src/ipc/ipc.c:69-87 | bytes sent and bytes queued stay the accepted bytes; what is left waits for the socket, and only a broken one fails |
| `Ipc.Sender.Queue` | src/ipc/ipc.c:89-115 | a text is accepted whole when it fits in 65536 bytes, or not at all |
| `Ipc.Sender.SendMessage` | src/ipc/ipc.c:117-121 | a message that fits with its newline is accepted with it, unless the connection breaks |
| `Ipc.LinesOfStream` | src/ipc/ipc.c:117-121 | messages without a newline are the lines of the stream they make |
| `Ipc.MessagesAreFramed` | src/ipc/ipc.c:117-121 | a client that reads lines and decodes them gets the values that were sent |
| `Animation.ExactlyOneFate` | src/render/animation.c:433-585 | with the books in order an animation is live, pending, completed or cancelled, only one of these, and once |
| `Animation.BooksTaken` | src/render/animation.c:433-450 | taking the finishing ones off the list keeps the books |
| `Animation.BooksCancelled` | src/render/animation.c:499-513 | cancelling keeps the books |
| `Animation.Manager.TakeFinishing` | src/render/animation.c:433-450 | exactly the marked ones leave the list, in order |
| `Animation.Manager.Drain` | src/render/animation.c:452-470 | with callbacks that re-enter, it stops, everything marked before is completed, and nothing is left marked; inside a dispatch it does nothing; where the callbacks do nothing, exactly the marked ones are completed, in list order; the state is that of the pure drain, callbacks performed |
| `Animation.Manager.Release` | src/render/animation.c:153-159 | done is called once: the state afterwards is the old one with the animation completed and each operation of the callback performed, in order |
| `Animation.Manager.Finish` | src/render/animation.c:472-528 | the animations meant are completed at once, or only marked inside a dispatch; where their callbacks do nothing, in list order and no others; the state is that of the pure operation |
| `Animation.Manager.Cancel` | src/render/animation.c:499-513 | the live ones with that data are gone without done being called; what a drain holds is out of reach |
| `Animation.Manager.Start` | src/render/animation.c:545-585 | a new animation is first in the list; without a duration it is completed on the spot and its done callback performed |
| `Animation.Manager.Advance` | src/render/animation.c:587-648 | the walk with its saved next animation: while callbacks insert, mark and cancel, everything it has passed is marked if its time is over; it survives whenever no callback cancels an animation further on, and without callbacks nothing else changes; the state is that of the pure walk, apply callbacks performed |
| `Animation.Manager.Step` | src/render/animation.c:597-648 | one round of the walk survives exactly when the animation saved as the next one is still live, and then goes on there |
| `Animation.OwnDataIsSparing` | src/render/animation.c:597-648 | apply callbacks that cancel only their own data never break the walk if no two live animations share their data |
| `Animation.Manager.Tick` | src/render/animation.c:587-648 | if the walk survives, what has ended is afterwards completed, or was cancelled by a callback, and nothing is left marked; where nothing is cancelled it is completed; where the callbacks do nothing, in list order and nothing else; the state is that of the pure tick |
| `Animation.Manager.Session` | src/render/animation.c:427-648 | after any sequence of calls and frames, whatever their callbacks do, every animation ever started is live, completed or cancelled, only one of these, and its done was called at most once; a walk can be lost only to a callback that cancels; the state is that of the pure run, every operation of every callback performed |
| `Callbacks.EveryCallbackRuns` | src/render/animation.c:153-648 | over every run the operations performed are exactly those asked for by the event loop, by apply callbacks and by the done callbacks of completed animations, each as often as asked for; the animations started are those of the runs among them, in order |
| `Callbacks.DrainedPerforms` | src/render/animation.c:452-470 | a drain performs the whole done callback of every animation it completes, with what that starts, and no other operation |
| `Callbacks.ReleasedPerforms` | src/render/animation.c:153-159 | completing an animation performs its done callback and what an instant animation in it brings along |
| `Callbacks.VisitedPerforms` | src/render/animation.c:597-648 | the walk performs the apply callback of an animation exactly when its time is not over and it is not marked |
| `Callbacks.PlayedStarts` | src/render/animation.c:545-585 | the animations ever started are the runs among the operations performed, in order |
| `Callbacks.LastOperationHolds` | src/render/animation.c:153-159 | after a done callback its last operation has taken effect: the animation run is at the head of the list, no animation with the data cancelled is on it, those finished are marked |
| `Callbacks.DoneCallbackRuns` | src/render/animation.c:452-470 | a drain whose one marked animation runs another leaves that one at the head, before everything that was left |
| `Callbacks.FinishTakesExactly` | src/render/animation.c:472-528 | outside of a dispatch and without callbacks finishing completes all, or those of one data or one owner, in list order, and leaves exactly the others; NULL finishes none |
| `Easing.BezierRises` | src/render/animation.c:667-672 | a curve whose handles meet the condition of `Easing.Rising` does not go back |
| `Easing.NeverNegativeExactly` | src/render/animation.c:667-672 | the cubic is never negative on [0, 1] exactly when its first handle is not and the second is not or is at most so far below zero that three times its square is within four times the first |
| `Easing.InsideExactly` | src/render/animation.c:667-672 | a curve stays in [0, 1] exactly when its vertical handles, and what they leave to one, meet that condition |
| `Easing.RisesExactly` | src/render/animation.c:667-672 | the cubic never goes back exactly when the first handle is at least 0, the second at most 1, and they are in order or the square of their difference is at most the product of their distances from 0 and 1 |
| `Easing.UnitHandles` | src/config/parse.c:991-994 | handles in [0, 1], as the configuration demands of the horizontal ones, meet both conditions |
| `Easing.Bracket` | src/render/animation.c:674-697 | after n steps x(low) < t <= x(high), within [0, 1], and the width is 2 to the minus n |
| `Easing.Crossing` | src/render/animation.c:674-697 | everything left of the interval is before t and everything right of it is not, for the handles that the configuration accepts |
| `Easing.TwoRuns` | src/render/animation.c:674-697 | of two runs the later time has the same interval or one further right |
| `Easing.CurveAt` | src/render/animation.c:674-697 | the loop computes the eased value |
| `Easing.EasedIsOnCurve` | src/render/animation.c:674-697 | the eased value is the height of the curve at a place within 2 to the minus 65 of which the curve crosses the time |
| `Easing.EasedInUnit` | src/render/animation.c:674-697 | the eased value is in [0, 1] at every time if its curve stays there, for which the condition is exact |
| `Easing.EasedRises` | src/render/animation.c:674-697 | the eased value never goes back in time, and is in [0, 1], if its curve never goes back |
| `Easing.HandlesMatter` | src/config/parse.c:991-1001 | a curve that the configuration accepts fails the condition, and its eased value is negative half-way |
| `Easing.ElapsedRises` | src/render/animation.c:699-718 | progress never goes back in time |
| `Easing.ElapsedIsShare` | src/render/animation.c:699-718 | during an animation progress is the share of the duration, in milliseconds, that has gone by |
| `Easing.MixMoves` | src/render/animation.c:161-174 | a coordinate stays between its ends and moves towards the second, through truncation and saturation |
| `Easing.MixIsShare` | src/render/animation.c:161-174 | a coordinate has gone its share of the way to within one, rounded towards zero; where that is no 32-bit coordinate it is the last one on the way |
| `Easing.FramesMoveOn` | src/render/animation.c:183-202 | along an easing that never goes back each coordinate of the frames moves from its start to its end and never back |
| `Easing.FramesStayBetween` | src/render/animation.c:183-202 | along an easing that stays inside each coordinate of the frames stays between its start and its end |
| `Easing.FrameEnds` | src/render/animation.c:183-202 | the first box before the start, the last box from the end on |
| `Policy.ClampAxisNearest` | src/shell/policy.c:76-107 | the result is inside, nothing inside of its size is closer, its size is the closest that fits, and saturation is never needed |
| `Policy.ClampKeeps` | src/shell/policy.c:76-107 | clamping lands inside, is idempotent, and leaves alone exactly the boxes inside |
| `Policy.RoundScaled` | src/shell/policy.c:109-132 | the rounded double is the quotient of integers rounded half up |
| `Policy.OffsetFits` | src/shell/policy.c:109-132 | a box from a smaller area is inside the larger one before clamping |
| `Policy.ReanchorKeepsShare` | src/shell/policy.c:109-132 | a box carried to an area at least as large keeps its size and its share of the way on both axes, rounded half up, or stops at the largest coordinate on the way there |
| `Policy.AxisRoundTrip` | src/shell/policy.c:109-132 | on one axis there and back is home exactly when the saturated edge leaves enough |
| `Policy.ReanchorRoundTrip` | src/shell/policy.c:109-132 | a box carried to an area at least as large and back is the same box exactly when both axes return |
| `Policy.ReanchorRoundTripInRange` | src/shell/policy.c:109-132 | always so when the last pixel of the larger area has 32-bit coordinates |
| `Policy.ReturnCanFail` | src/shell/policy.c:127-130 | an area past the largest coordinate loses a box |
| `Policy.CenterBalances` | src/shell/policy.c:134-158 | the box ends inside; centred on the area its margins are equal up to one pixel, exactly unless saturation interferes |
| `Policy.CenteringCanFail` | src/shell/policy.c:134-158 | an area at the largest coordinate whose centred box has unequal margins |
| `Policy.CenterIsNearest` | src/shell/policy.c:134-158 | of all the places for a box of its size in the area none is nearer to the middle of the anchor, wherever the anchor is and through both saturation and clamp; of two equally near ones the odd pixel decides |
| `Effect.CollectTree` | src/render/workspace_effect.c:107-189 | the leaves are the drawable nodes of the tree in order, with their place and their look, the count is of those that can be seen, and the buffers among them let the pointer through from then on |
| `Effect.AreasAreBoxes` | src/render/workspace_effect.c:107-189 | the records of a tree give the boxes that the tree draws, wherever its root is moved, every tree moving what is inside it |
| `Effect.DrawableExactly` | src/render/workspace_effect.c:140-189 | a leaf is counted exactly when it is enabled and its box has a pixel |
| `Effect.DrawableCountEnds` | src/render/workspace_effect.c:263-266 | there is content exactly when some leaf can be drawn |
| `Effect.RestoreLeaf` | src/render/workspace_effect.c:300-331 | the node looks as recorded, with the opacity multiplied in; a buffer lets the pointer through and has no opaque pixels any more |
| `Effect.ApplyLeaf` | src/render/workspace_effect.c:411-448 | the node looks as one frame says, whatever it looked like before; a buffer is muted as by the restore |
| `Effect.DisabledExactly` | src/render/workspace_effect.c:340-372 | a leaf is disabled exactly when no pixel of its moved box is in the viewport |
| `Effect.DrawnExactly` | src/render/workspace_effect.c:340-372 | a leaf can be drawn exactly when everything around it is enabled and its box has a pixel |
| `Effect.ShowsExactly` | src/render/workspace_effect.c:411-448 | an enabled leaf shows exactly the pixels of its moved box in the viewport, exactly unless its position saturates |
| `Effect.CroppingCanSaturate` | src/render/workspace_effect.c:411-448 | a leaf at the largest coordinate that is enabled and shows other pixels than its own |
| `Transforms.TurnsBack` | src/render/workspace_effect.c:389-406 | a part of a buffer that is turned and turned back, within the turned size, is that part again |
| `Effect.CropKeepsSampling` | src/render/workspace_effect.c:374-409 | cropping a buffer does not move or scale its picture, in whichever of the eight ways the buffer is turned and flipped |
| `Effect.WholeBuffer` | src/render/workspace_effect.c:374-387 | what is cropped is the part of the buffer that was set, or all of it, in whichever way it is turned |
| `Effect.Transition.Apply` | src/render/workspace_effect.c:460-483 | every leaf depends only on its record and this frame; in a fade at opacity 1 and above the outgoing tree is as recorded and the incoming one transparent, at 0 and below it is the reverse, and without a fade both are as recorded; the roots are where the frame puts them |
| `Effect.Transition.CrossFades` | src/render/workspace_effect.c:460-483 | in between, the colours of the outgoing tree are the recorded ones times the opacity, and those of the incoming one times what that leaves to one |
| `Effect.Transition.FadesOver` | src/render/workspace_effect.c:460-483 | of two frames the one with the larger opacity shows the outgoing tree no weaker and the incoming one no stronger |
| `Effect.Transition.TreesChangePlaces` | src/render/workspace_effect.c:268-483 | the incoming tree stands the travel away from the outgoing one, in the direction of the change, and arrives where that one was |
| `Effect.Transition.Restore` | src/render/workspace_effect.c:234-252 | every leaf is as recorded, with the input and the opaque pixels of buffers off, and the roots are at the origin |
| `Effect.Transition.Play` | src/render/workspace_effect.c:234-252 | after any frames and the restore every leaf looks as it did before the first; buffers do not get input and opaque region back |
| `Swipe.PositionIsBounded` | src/input/swipe_tracker.c:135-156 | the position is the raw one within 1 of the centre, and otherwise between 1 and 1.05 away |
| `Swipe.PositionGivesWay` | src/input/swipe_tracker.c:146-156 | past the edge the position goes on, less and less, at a distance d by d / (2 + 20 d), and by 0.05 from the flat part on |
| `Swipe.PositionIsOdd` | src/input/swipe_tracker.c:135-156 | the rubber band is odd about the centre |
| `Swipe.PositionRises` | src/input/swipe_tracker.c:135-156 | and it never goes back |
| `Swipe.SecantIsBetween` | src/input/swipe_tracker.c:135-178 | past the same edge a secant lies between the derivatives at its ends |
| `Swipe.TargetLeaves` | src/input/swipe_tracker.c:180-197 | in single mode the target leaves the centre exactly when the projection is at least the threshold away, and is then its neighbour on that side |
| `Swipe.TargetIsNearest` | src/input/swipe_tracker.c:180-197 | with one half as the threshold neither the centre nor a neighbour is nearer to the projection than the target |
| `Swipe.ContinuousTargetLands` | src/input/swipe_tracker.c:118-133 | there is a target for every projection in range, and it is whole and less than the threshold behind it or what the threshold leaves to one ahead |
| `Swipe.LandsOnce` | src/input/swipe_tracker.c:118-133 | only one position is |
| `Swipe.ContinuousTargetIsNear` | src/input/swipe_tracker.c:118-133 | the target is a whole position less than one away, and the projected one if that is whole |
| `Swipe.ContinuousTargetRises` | src/input/swipe_tracker.c:118-133 | swiping further leads no less far, in one direction with every threshold and across the start with one of at most one half |
| `Swipe.LandingCanFall` | src/input/swipe_tracker.c:118-133 | with every larger threshold there are two releases of which the further one leads less far |
| `Swipe.LandingRisesExactly` | src/input/swipe_tracker.c:118-133 | of the thresholds between 0 and 1 those up to one half are exactly the ones with which releasing further never leads less far |
| `Swipe.ScrubTargets` | src/input/pointer.c:1346-1352 | clamped to what is shown, the target is its floor or its ceiling |
| `Swipe.Tracker.Push` | src/input/swipe_tracker.c:27-38 | the ring holds the newest 32 samples |
| `Swipe.Tracker.Velocity` | src/input/swipe_tracker.c:40-80 | the velocity is that of the newest samples within the window, wherever the ring has put them |
| `Swipe.SumSwapped` | src/input/swipe_tracker.c:54-72 | the sums do not depend on where the ring starts |
| `Swipe.SumIsOfCounted` | src/input/swipe_tracker.c:54-72 | the sums are the number of the samples that count, the way they went, and the ages of the youngest and the oldest of them |
| `Swipe.CountsInWindow` | src/input/swipe_tracker.c:54-66 | a sample counts exactly when it was taken in the window before now, also when the clock has wrapped around in between |
| `Swipe.VelocityIsPerSecond` | src/input/swipe_tracker.c:67-79 | the velocity is that way for each second between the youngest and the oldest sample, with its sign |
| `Gesture.RingWrapWhole` | src/workspace/tag.c:1281-1295 | for whole positions wrapping is the Euclidean modulo |
| `Gesture.NearestIsCongruent` | src/input/pointer.c:1085-1087 | the centre is congruent to the index of the tag modulo the length of the ring |
| `Gesture.CenterMarks` | src/input/pointer.c:1070-1087 | the centre is a position of the focused tag, at most half a ring from where the swipe starts |
| `Gesture.CancelReturns` | src/input/pointer.c:1334-1339 | the target of a cancelled gesture is a copy of the initial tag, in the continuous modes the nearest one |
| `Gesture.FinishIsPromised` | src/input/pointer.c:1341-1356 | in every mode the target is where the projection leads: past the threshold to the neighbour of the centre, on to the next position in the direction of the swipe, or to the one of the two positions shown |
| `Gesture.FinishRises` | src/input/pointer.c:1329-1356 | in every mode a release that is projected further ends no less far, on one side of the start or with a threshold of at most one half |
| `Gesture.TowardLeads` | src/input/pointer.c:1384-1392 | the direction of the focus change leads to the target, from the centre or, if that is the target, from what is shown |
| `Gesture.ShownVelocityIsSlower` | src/input/pointer.c:1326-1328 | the settling velocity never exceeds that of the fingers and never turns around |
| `Gesture.State.Begin` | src/input/pointer.c:1005-1155 | a swipe with another number of fingers changes nothing; any other ends the gesture that was going on, and the new one is active exactly when the focused tag is on a ring of 2 to 65 tags, and is then centred on that tag; a transition it does not fit is given up for the tags as they are afterwards |
| `Gesture.State.Update` | src/input/pointer.c:1157-1278 | motion of another pointer changes nothing; the gesture engages exactly after 16 units that are mostly sideways and then follows the motion until it is out of reach; centre, ring and tag do not change; fingers to the right raise the position, and to the left with natural scrolling |
| `Gesture.State.End` | src/input/pointer.c:1280-1404 | an end from another pointer changes nothing; a cancelled gesture resolves to the initial tag at rest, a finished one to the tag at its promised target, with the direction that leads there and the velocity of the rubber band; it is dropped exactly when there is no target |

## Left out

- Memory exhaustion, and everything that only exists to free memory.
- Truncation of line and column numbers to 32 bits.
- The texts of diagnostics, their columns, and the merging of equal ones; environment variables that are unset expand to `none` here as in the source, but the warning is not modelled.
- Parsing of `leme.env`; the environment is a map.
- Block arrays grown with `realloc`: `seq` fields stand for them; only the line table, the distance row, the placements, the input buffer and the sample ring are arrays.
- Children of a directive are values of a tree, not pointers, so sharing of blocks is not expressible.
- The field-by-field parsers of the configuration blocks and the checks of `validate.c`.
- The JSON reader knows integers only, as the writer writes no other numbers.
- Ipc.Sender.SendMessage: when it fails the message may have been accepted without its newline, as in the source; what the caller then does with the client is not modelled.
- Ipc.Sender.Flush: a socket is a finite script of answers, after which it blocks; a `send` that returns 0 forever is not modelled.
- Request tokenising and the commands behind a request: the fate of a client after a request is a function of the requests so far.
- Animation.Manager.Advance: when a callback cancels the animation that the walk has saved as the next one, the source goes on in freed memory; the model stops there and says so. Callbacks that call tick are not modelled.
- NULL managers, snapshots and subjects, and an animation without a done callback, which is one whose callback does nothing.
- Spring physics and everything else that needs exp, log or cosine; where a swipe is projected to is a parameter.
- Rounding of doubles, NaN and infinity; the distance at which the rubber band becomes flat is any positive number.
- Effect.CropKeepsSampling: the source box of a buffer is exact reals, and absolute coordinates do not overflow. `wlr_fbox_transform` is not part of the repository; `Transforms.Turned` is the eight cases of `wl_output.transform`.
- Effect.Transition.constructor: the rejection of bad arguments and the rounding of the travel distance are left to the caller.
- Policy.RoundScaled: the product is assumed to fit in 64 bits, which it does for a box inside its area.
- Gesture.State.Begin: device settings and the session are one boolean.
- Scene trees, outputs, seats, sockets, processes and D-Bus.
