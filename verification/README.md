# Alcove in Dafny

Alcove is a Lisp interpreter in C with reference-counted values, a backup collector for cycles, a concurrent
key-value store whose memory is reclaimed by epochs, an indentation syntax (Adder) that is transpiled to and printed
from s-expressions, and databases that outlive the process. This project models those parts and proves what they
promise. Verify it with `dafny verify dfyconfig.toml`.

## Files

- **Memory.** `RefGraph`, `HeapModel` and `RefHeap` model counted cells and environments as one graph; a *token* is a
  reference held outside the graph, and a node that is being torn down hands its references over as tokens.
  `CycleTheory`, `CollectorTally`, `SweepTheory` and `Collector` are `(gc-cycles)`: classify and count, mark from
  what has uncounted references, sweep the rest.
- **Epochs.** `Epoch` is `epoch.c` as a machine of atomic steps, with readers and writers around it.
- **Adder.** `AdderForms`, `AdderReader`, `AdderSource`, `AdderBlocks` and `AdderOutput` are the transpiler as functions;
  `AdderCursor`, `AdderScanners` and `AdderTranspiler` are the same as loops over a cursor, scanners and a block engine
  with its stacks, proved equal to those functions. `AdderPrinter` is `alc2adr.py`. `AdderInline`, `AdderLayout`,
  `AdderText` and `AdderRoundTrip` lead to the round trip; `AdderExact` and `AdderAtoms` say which lines break.
  `AdderSugar`, `AdderSugarReads` and `AdderSugarLines` are the surface syntax that the printer never writes, and what
  it is short for; `AdderEmitted` reads the generated text back; `AdderIndent` is about mixed indentation;
  `AdderBlanks`, `AdderWiden`, `AdderGaps`, `AdderTwins`, `AdderJoin` and `AdderBreaks` are about breaking lines: where
  the reader stands at a gap, what a wider gap does to a form, a line and a source. `AdderComments`, `AdderCounts`,
  `AdderHung` and `AdderUnbroken` are about what is kept, line feeds above all, `AdderArms` about `elif` and `else`.
- **Databases.** `Persist`, `PersistCheck` and `PersistTrip` are values, `Database`, `DatabaseTrip`, `DatabaseRestore` and
  `DatabaseFile` whole files.
- **Tables and the rest.** `ErrMeta` (error metadata by open addressing), `Dict` (chained hash tables), `QuasiQuote`,
  `Comprehensions`, `Matcher`, `Numbers`, `Codecs`, `CodecNumbers`, `Values`, `Wrappers`.

Where the code falls short of what one would expect of it, the failing input is a lemma and the condition under which
it does hold is proved:

- A list of 16384 cells or more is written to a database and makes the whole load fail (`PersistTrip.LongListLost`).
- Loading binds a class that a later record mentions over an earlier record of the same name
  (`DatabaseRestore.BindingLost`).
- The check before writing does not look into every container, so saving can still fail (`Persist.UncheckedSlips`).
- An unregistered thread that retires a pointer frees it under a reader (`Epoch.UnregisteredRetireFrees`).
- A string literal that spans two lines shifts the source map (`AdderUnbroken.LiteralShifts`).
- Symbols that end in `#`, and the character literals of a colon, a quote and a space, do not survive printing at every
  position (`AdderAtoms`).
- A line broken inside brackets changes the trees where the reader stands in a literal that the gap belongs to
  (`AdderJoin.BreakSource` says exactly when): after `#\` (`AdderBreaks.SpaceLiteralGlues`), after a `#\"` inside a symbol
  (`AdderBreaks.QuoteInSymbolShrinks`), and after a colon that is misread in a string literal
  (`AdderBreaks.ColonInTextShrinks`).
- A comment on a line that leaves a bracket open swallows every line joined to it (`AdderBreaks.CommentUnterminated`).
- An `else:` can be given to an `if` of a block that is closed (`AdderArms.StrayArm`).
- A false atom in the dotted tail of a quasiquoted list is lost (`QuasiQuote.FalseTailLost`), and a quasiquotation
  inside another is not filled: its expansion code stands in the value (`QuasiQuote.NestedStays`).
- A generator's filter and a list comprehension's filter disagree on predicates that answer with a false value other
  than nil (`Comprehensions.LazyIsEager`).

## Model

| member | source | states |
|---|---|---|
| RefHeaps.RefHeap.Unref | alcove.h:1048-1055 | dropping a reference keeps every count equal to the references there are; whatever is reachable from what is still held stays alive and unchanged |
| RefHeaps.RefHeap.UnrefFree | alcove.c:1525-1695 | the same for a cell that lost its last reference and, in a loop, its chain of successors |
| RefHeaps.RefHeap.DestroyEnv | env.h:132-181 | the same for an environment and, in a loop, the parents that die with it; and an environment dies exactly when nothing refers to it any more, or when only its own unshared closures do, which then die with it |
| RefHeaps.RefHeap.MakeEnv | env.h:56-72 | the slot handed out was dead, holds nothing of an earlier tenant, has count 1, and only its parent's count changes |
| HeapModel.BreakableMeans | env.h:98-130 | when the self-cycle test says yes, no token refers to the environment, its only referrers are its own closures, and those have no other referrer |
| HeapModel.BreakableExactly | env.h:98-130 | the test says yes if and only if that is so and there is such a closure |
| HeapModel.ReachableSurvives | alcove.c:1525-1695 | a release frees nothing that a held reference or an immortal leads to |
| CycleTheory.DeadExactly | gc.h:494-552 | a candidate is unmarked if and only if no path leads to it from a token or from a live node the collector does not walk |
| CycleTheory.DeadIsolated | gc.h:494-552 | nothing outside the unmarked candidates refers to one of them |
| CycleTheory.CountFits | gc.h:274-279 | the collector's count of a candidate never exceeds its reference count |
| CycleTheory.CandidatesAre | gc.h:81-98 | the candidates are exactly the live mortal containers and closures below the bound, and the environments on the upward chains of such closures |
| CycleTheory.RingIsGarbage | gc.h:438-611 | a dict that holds a closure whose environment binds the dict is garbage of two cells |
| Collectors.CollectCycles | gc.h:438-611 | for every heap: exactly the candidates that nothing outside leads to are reclaimed and counted, everything else reachable is unchanged, no node changes at all but those that are released, all counts are right again, and a failed allocation changes nothing; told by kinds of nodes, every live mortal container or closure below the bound, and every environment on a closure's upward chain, is dead afterwards unless something of another kind, an immortal or a token leads to it |
| Epoch.RunSafe | epoch.c:24-135 | in every state of every interleaving, no pointer held by a registered reader has been freed, provided immediate frees are of pointers nobody holds |
| Epoch.RunSafeExactly | epoch.c:68-101 | that proviso is exact: all states of a run are safe if and only if every retirement by an unregistered thread is of a pointer nobody holds |
| Epoch.RegisteredRunSafe | epoch.c:68-101 | if no unregistered thread retires, every state of every interleaving is safe |
| Epoch.UnregisteredRetireFrees | epoch.c:68-101 | a run from the start in which an unregistered retirement frees a pointer that a registered reader holds |
| Epoch.FreedOnce | epoch.c:103-135 | over any run from the start, whoever registers, a pointer is handed to a freer at most once, and exactly once if it ends up freed |
| Epoch.PendingOnce | epoch.c:68-121 | in every state of every run from the start, a retired pointer not yet disposed of is in exactly one list, once, and the list's counter is its length |
| Epoch.IndicesDistinct | epoch.c:24-40 | in every state of every run from the start, registered threads have distinct indices below the limit, however far registrations overshoot the counter |
| Epoch.GcTerminates | epoch.c:42-121 | in every run from the start, a collection can always step, and it is over after a bounded number of steps of its own, whatever other threads do in between |
| Epoch.TickedThenFreed | epoch.c:60-121 | in every run from the start, once every registered thread has ticked after a pointer was queued, the owner's next completed collection has freed it |
| Epoch.Registers | epoch.c:24-40 | a registration that nobody interrupts takes the next index and starts out at the present epoch; past the limit it leaves everything as it was |
| AdderBlocks.FinishTrees | adr.h:1181-1201 | after the late pass every root equals its tree with each synthesized one-statement arm unwrapped |
| AdderBlocks.StepGood | adr.h:1047-1178 | every line, well formed or not, keeps the stacks, the `if` table and the noted arms consistent |
| AdderLayout.LayoutRoundTrip | adr.h:1047-1201 | on lines that are already read as the printer means them, the engine rebuilds exactly the printed forms and maps each to its start line |
| AdderRoundTrip.TextRoundTrip | alc2adr.py:286-375 | transpiling the printed text of forms whose lines all read right gives back exactly those forms (`true` and `false` as `t` and `nil`), their start lines, and no diagnosis |
| AdderRoundTrip.RoundTrip | alc2adr.py:286-375 | the same under a condition on the trees alone |
| AdderRoundTrip.MapTotal | adr.h:814-822 | for every source the map has one entry per form |
| AdderExact.LineExact | adr.h:624-796 | for every line the printer makes: it is read back as meant if and only if its atoms are legible, no scanner finds a comment, bracket, string or colon that is none, and its head is no special case |
| AdderSugar.AttributeExact | adr.h:166-207 | the tokens taken apart at their dots are exactly those with up to 63 dots, each between characters that are neither dots nor digits, and a proper start |
| AdderSugarReads.LineReads | adr.h:107-560 | for every line of surface terms (attribute paths, method calls, glued calls and parameter lists, quoting marks, all nine brackets, blobs, truth values, assignments, any gaps): it is read as the tree it is short for, written with the target's names |
| AdderSugarLines.SugarFile | adr.h:564-1201 | a file of such lines, or of headers with their statement behind the colon, transpiles to those trees, each mapped to its line, without a diagnosis |
| AdderSugarLines.HeaderSays | adr.h:728-748 | such a line with a colon at its end opens a block with its tree, unless it is an arm |
| AdderSugarLines.OpenReported | adr.h:938-1007 | a line with any of the brackets left open, and no more, is diagnosed |
| AdderIndent.IndentExact | adr.h:1009-1050 | mixed indentation is noted if and only if the lines, taken together, start with both kinds of blank, and then there is a diagnosis |
| AdderAtoms.HashStands | adr.h:624-685 | a `#` that ends a symbol starts a comment exactly before a blank, before `!` and at the end |
| AdderAtoms.ColonStands | adr.h:757-780 | a colon that ends a symbol splits the line exactly before a blank that something follows |
| AdderAtoms.HashLost | adr.h:624-685 | `(a w# b)` is printed as a line of which the reader sees `a w` |
| AdderAtoms.HashKept | adr.h:624-685 | `(a (b w#))` survives |
| AdderAtoms.CharColonLost | adr.h:728-748 | `(a #\:)` is printed as a line that opens a block |
| AdderAtoms.CharColonKept | adr.h:728-780 | `(a (b #\:))` survives |
| AdderAtoms.CharQuoteLost | adr.h:728-748 | `#\"` in the header of a block hides the block colon |
| AdderAtoms.CharQuoteKept | adr.h:728-780 | `(a #\")` survives on a line that opens no block |
| AdderJoin.BreakSource | adr.h:938-1007 | in a source without diagnoses, breaking a line at a space inside brackets raises no diagnosis, and gives the same forms if and only if the gap keeps its width or the reader, at the gap, stands neither in a string literal nor after a `#\` that would become the head of a call |
| AdderJoin.OneBlankHarmless | adr.h:938-1007 | a single blank between two tokens of a line is always such a place |
| AdderBreaks.SpaceLiteralGlues | adr.h:938-1007 | two sources without diagnoses: `(f #\  (x))` on one line, and broken at the first blank after `#\`; their forms differ |
| AdderBreaks.QuoteInSymbolShrinks | adr.h:624-725 | two more: a `#\"` inside a symbol is a character for the scanners and the start of a string literal for the reader |
| AdderBreaks.ColonInTextShrinks | adr.h:757-780 | two more: after the literal `#\"` the colon scanner splits the line inside a string literal |
| AdderBreaks.NoCommentInside | adr.h:955-985 | in a source without diagnoses no comment starts on a line that leaves a bracket open |
| AdderBreaks.CommentUnterminated | adr.h:955-985 | `(a ; c` followed by ` b)` is diagnosed |
| AdderWiden.LineGap | adr.h:282-383 | a line reads the same with a gap of another width if and only if the reader's place at the gap allows it; otherwise it reads differently, to a node of the same kind |
| AdderTwins.StepDiffers | adr.h:1047-1178 | a line in two versions leaves two engines that differ in one place |
| AdderTwins.StepTwin | adr.h:1047-1178 | and whatever line follows, they go on to differ there and nowhere else |
| AdderTwins.TwinsFinish | adr.h:1181-1201 | such engines write out different forms |
| AdderHung.StepHung | adr.h:1047-1178 | every line keeps each node hung under a root, takes nothing away, and puts down all it brings unless it is diagnosed |
| AdderGaps.LogicalGap | adr.h:624-796 | a logical line with a gap inside brackets made wider has the same indentation, and says the same if and only if the reader's place at the gap allows it |
| AdderOutput.OneLineEach | adr.h:1195-1201 | the generated text has one line for each form, the form's text, if and only if no form's text holds a line feed |
| AdderOutput.MapExact | adr.h:798-834 | for every source and every form, the map's entry is the first physical line of the logical line that the form came from, and the source has that line there |
| AdderOutput.MapRight | adr.h:798-834 | if no form holds a line feed, line k+1 of the generated text is form k, and looking it up gives that line |
| AdderEmitted.EmitExactly | adr.h:847-860 | a text is what is written for forms of single tokens if and only if a strict reader of parentheses, single blanks, tokens and line feeds reads it as those forms |
| AdderEmitted.GeneratedReads | adr.h:1195-1201 | the generated text of a source whose forms are of single tokens is read as its forms |
| AdderEmitted.GeneratedTrip | alc2adr.py:286-375 | printable trees that are printed, transpiled and written out are read from the generated text as themselves |
| AdderUnbroken.SourceUnbroken | adr.h:938-985 | in a source without diagnoses some form holds a line feed if and only if some string literal spans lines |
| AdderUnbroken.NoFeedUnbroken | adr.h:938-985 | with diagnoses too: if no literal spans lines, no form holds a line feed |
| AdderUnbroken.LinesForForms | adr.h:1195-1201 | the generated text of a source without diagnoses has one line for each form if and only if no literal spans lines |
| AdderCounts.BodyCount | adr.h:282-383 | reading a line makes up no line feed, colon, hash sign or semicolon, and loses no line feed |
| AdderUnbroken.LiteralShifts | adr.h:798-834 | a source with a literal over two lines, and where its map goes wrong |
| AdderArms.ArmExact | adr.h:1047-1110 | an arm extends the last `if` noted at its column; that is an `if` of the block the arm stands in if and only if the innermost open block is still the one the `if` line stood in |
| AdderArms.ArmOpen | adr.h:1047-1110 | which is so as long as no line stands to the left of the `if` |
| AdderArms.StrayArm | adr.h:1047-1110 | six lines after which the `else` of one function has become an arm of another function's `if`, with no diagnosis |
| AdderArms.ArmReported | adr.h:1047-1110 | an arm is diagnosed, at its line, if and only if of the lines at its column, `elif` aside, the last is no `if`, `when` or `unless` header |
| AdderCursor.LineReader.Forms | adr.h:282-383 | the reading loop over a cursor computes the reader function, forms and position; what that function reads is `AdderSugarReads.LineReads` and `AdderExact.LineExact` |
| AdderScanners.StripComment | adr.h:624-685 | the comment loop computes its function |
| AdderScanners.BracketDepth | adr.h:697-725 | so does the bracket loop |
| AdderScanners.FindColon | adr.h:757-780 | so does the colon loop |
| AdderTranspiler.BlockEngine.TakeLine | adr.h:1047-1178 | one line on the mutable stacks is one step of the engine function |
| AdderTranspiler.GenerateText | adr.h:890-1201 | the whole transpiler as loops computes the text, the map and the first diagnosis; what the text says is `AdderEmitted.EmitExactly` |
| Persist.DumpWrites | persist.h:414-483 | a value can be written if and only if every type in it can |
| Persist.CheckedWrites | dict.h:116-168 | what the check passes can be written, where the check looks |
| PersistCheck.PassesExactly | dict.h:116-168 | the check passes every value that can be written and is at most 512 levels deep, and nothing deeper; where it looks everywhere, exactly those |
| Persist.UncheckedSlips | dict.h:146-168 | a container it does not look into passes with anything inside |
| PersistTrip.ValueTrip | alcove.c:2532-2605 | a written value can be read if and only if its types are available and no chain of halves and elements is too deep; it then comes back under the same names in other ids, and nothing else changes but new classes |
| PersistTrip.LongListLost | persist.h:426-445 | lists of every length pass the check and are written; they are read if and only if they have fewer than 16384 cells |
| DatabaseRestore.SelectParts | alcove.c:4477-4536 | a marked binding, or an entry that has not expired, is certainly selected if its value can be written and is at most 512 levels deep; no other is, if the check looks into all of the value |
| DatabaseRestore.PointFile | alcove.c:4550-4618 | the file of a small session, token for token |
| DatabaseRestore.Versions | alcove.c:4680-4702 | files are taken at version 5, left to older readers at 1 to 4, and refused at others |
| DatabaseRestore.DumpFails | alcove.c:4550-4618 | saving fails if and only if a selected value holds a type that cannot be written |
| DatabaseTrip.TableIsOk | alcove.c:4703-4737 | every entry of the table built from the file is 0 or the id of the type of the same name |
| DatabaseTrip.TableTrip | alcove.c:4703-4737 | the written table reads back entry by entry, modules being loaded on the way |
| DatabaseTrip.ProvideMeans | alcove.c:4703-4737 | a type asked for is there afterwards if and only if it was before, or modules may be loaded and its module has it, short of a full table of 256 |
| PersistTrip.ClaimMeans | alcove.c:2556-2571 | a class is found by its name, or gets the next id and takes its name's binding with its time stamp |
| DatabaseTrip.RegisteredIsFound | alcove.c:4703-4737 | a type registered before is found whatever modules do; in safe mode no other is, and the types stay as they are |
| DatabaseRestore.LoadTrip | alcove.c:4680-4768 | loading a saved file succeeds if and only if all names, keys and saved values fit; the saved records and no others then land, in order, and are counted |
| DatabaseRestore.DatabaseRoundTrip | alcove.c:4550-4768 | after a load every saved record is there with the value of the same names, the expiry kept if positive and the clock as its mark, except bindings overwritten by a new class; every other entry and binding stays, but for new classes' names |
| DatabaseRestore.NothingLost | alcove.c:4622-4674 | if the loader knows every class mentioned, every record is restored and every other binding stays |
| DatabaseRestore.BindingLost | alcove.c:2556-2571 | a saved binding that loading loses to a class |
| DatabaseFile.WriteRecords | alcove.c:4517-4543 | the loop that writes a section computes the records of the selection, which `SelectParts` describes, or fails |
| DatabaseFile.ReadFile | alcove.c:4680-4768 | the loops that read a file compute the load function |
| ErrMeta.Table.Record | alcove.c:299-341 | afterwards the error has exactly this metadata and every other entry is as it was, unless there is neither room nor memory |
| ErrMeta.Table.Find | alcove.c:263-273 | probing finds an error if and only if it is recorded |
| ErrMeta.Table.OnFree | alcove.c:351-359 | exactly the freed error's entry goes |
| ErrMeta.Table.Grow | alcove.c:274-295 | growing keeps the live entries and nothing else |
| Dict.Table.Set | dict.h:235-281 | the key gets the value, keeps its time stamp, and no other entry changes |
| Dict.Table.Delete | dict.h:301-325 | exactly the key's entry goes |
| Dict.Table.Rehash | dict.h:210-233 | the same entries in the same nodes, in new buckets |
| Dict.Table.Copy | dict.h:66-81 | the same keys and values in new nodes, without time stamps |
| QuasiQuote.ExpansionFills | alcove.c:3978-4038 | evaluating the expansion of a template fills it in, unquotes and splices in place |
| QuasiQuote.FalseTailLost | alcove.c:3978-4038 | at any pair with a false dotted tail the expansion loses the tail |
| QuasiQuote.NestedStays | alcove.c:3997-4010 | a nested quasiquotation evaluates to its mark and the code it expands to one level deeper, whatever its unquotes hold |
| QuasiQuote.FillProper | alcove.c:3978-4038 | a filled proper list is the concatenation of what its elements contribute |
| Comprehensions.LazyIsEager | comprehensions.h:24-255 | draining the generator gives the comprehension's list if and only if the filter answers each element with nil or something true |
| Comprehensions.Lfor | comprehensions.h:24-162 | one pass computes the kept elements' values in order, or the first error |
| Comprehensions.EagerFails | comprehensions.h:66-150 | the comprehension fails exactly with the error of the first element that raises one |
| Comprehensions.RangeExact | builtins_control.h:292-340 | a range is the numbers from its start in steps, exactly as long as they are on the near side of its end |
| Comprehensions.Drain | builtins_control.h:557-583 | draining collects everything before the sentinel, unless an error comes first |
| Matcher.MatchExact | builtins_control.h:71-204 | for linear patterns, a match is found if and only if the value is an instance, and its bindings make it one |
| Matcher.MalformedExact | builtins_control.h:71-204 | a pattern is called malformed if and only if something malformed is met after everything before it matched |
| Matcher.MatchClause | builtins_control.h:214-261 | in an environment of its own the matcher answers -1 if and only if it meets something malformed and 1 if and only if the value is an instance, and looking up each variable, in its slot or the overflow table, gives what makes it one |
| Numbers.TagRoundTrip | alcove.h:137-144 | a number has the tag 1 in its three lowest bits, and survives tagging if and only if it has 61 bits |
| Numbers.Expt | alcove.c:5644-5715 | the exact power if it is a fixnum, and an overflow if and only if it is not |
| Numbers.SqrtInt | alcove.c:5602-5618 | from any seed the loops arrive at the floor of the root |
| Numbers.RootUnique | alcove.c:5602-5618 | there is no other such number |
| Codecs.RoundTrip64 | blob.h:140-216 | decoding undoes encoding, for every byte string |
| Codecs.Accepts64 | blob.h:173-216 | the decoder accepts exactly whole groups of four from the alphabet with at most two pads |
| Codecs.Canonical64 | blob.h:140-216 | encoding gives an accepted text back if and only if its spare bits are zero |
| Codecs.Base64Encode | blob.h:140-168 | the loop computes the encoding |
| Codecs.Base64Decode | blob.h:173-216 | the shifting loop computes the decoding, or the same error |
| CodecNumbers.Spells64 | blob.h:140-168 | base64 text is the number that the bytes are, in the digits of the alphabet, written out |
| CodecNumbers.Spells16 | blob.h:220-240 | hexadecimal text is that number in lower-case digits, two for each byte |
| Codecs.RoundTripHex | blob.h:220-271 | decoding undoes encoding in hexadecimal |
| Codecs.CanonicalHex | blob.h:220-271 | pairs of digits are accepted and nothing else, and encoding lowers the case |

## Left out

- Memory: weak references and watch hooks, byte code, compiled pages and shared (atomically counted) values; payloads of
  strings and tables are abstract. Counts are unbounded. The inline slots and the overflow table of an environment
  are one sequence of bindings, and allocation failures are parameters.
- Collectors.CollectCycles: stacks and tables are given as allocations that succeed or fail; their growth factors are not
  modelled.
- Epoch: the 64-bit counter is unbounded and steps are sequentially consistent. That a pointer is unlinked before it is
  retired, and that no thread holds one while it ticks, are rules for the client. The threshold that starts a
  collection is not modelled: one may start at any idle point.
- AdderLayout.LayoutRoundTrip: starts from lines that are already read and at columns below 256; the text around them is in
  AdderRoundTrip.TextRoundTrip.
- AdderRoundTrip.RoundTrip: its condition on the trees is sufficient; the exact condition is on the printed lines. The
  trees come back with `=` at the head of a list as `setf`, `true` and `false` as `t` and `nil`, and with line feeds in
  string literals as escapes.
- AdderSugarLines.SugarFile: its words have no `#` or colon that a scanner would stop at, and its lines stand at the left
  edge; inside braces, where commas are blanks, no term starts with an unquote.
- AdderEmitted.EmitExactly: an atom with a blank, a parenthesis or a stray quote in it is no single token.
- AdderExact.LineExact: character literals of white space are not among its atoms; `AdderAtoms.CharSpaceLost` shows one
  that is lost.
- Adder text is a sequence of characters without NUL: the byte lengths of UTF-8 characters are not modelled. The reader
  of the printer, its bracket lambdas and comments are not part of this model, nor is the formatter.
- PersistTrip.ValueTrip: payloads of built-in and foreign types, the keys of dict values, versions 1 to 4 of the format,
  multi-arity lambdas and class validators are not modelled; pairs carry an empty name.
- DatabaseRestore.LoadTrip: what a failed load has already installed, and failures to allocate or to insert, are not
  described. The loading process is a value here, not updated in place, and one clock reading serves a whole load.
- ErrMeta and Dict: sizes are powers of two, so masks are remainders; the second table of a dict, which is never used, is
  left out, and released values are returned instead of being unreferenced.
- QuasiQuote.ExpansionFills: templates that hold a quasiquotation outside an unquoted expression are excluded, as the
  code does not fill them; `cons`,
  `append` and `quote` have their usual meaning.
- Comprehensions: bodies are functions of the element; sets, dicts and nested generators are not modelled.
- Matcher: guards are functions; floating-point NaN and reserved names are not modelled.
- Numbers: rationals, decimals and floating point; Codecs: MessagePack and JSON.
- The reader of s-expressions, the evaluator, the byte-code compiler, the JIT and the network server.
