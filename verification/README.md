# Afterpiece: verified models

Dafny models of the parts of Afterpiece in which correctness does not follow from reading a single function, with
proofs of what those parts promise. Code that changes state is modelled by classes and methods with loops, each
proved equal to a specification function; goroutines are modelled as state machines in which one statement or
channel operation is one step; the properties are then proved about the specification functions and about every
reachable state. `dafny verify dfyconfig.toml` checks everything.

| module | what it models |
|---|---|
| `ScrubScanner`, `ScrubStream`, `ScrubPaths` | the JSON scrubber: one-pass tokenizer with one-byte pushback, stream walker, path tree |
| `ScrubSafety` | what holds of the scrubber on every byte string: termination, ordered bounds, exact splice |
| `ScrubTokens` | what its tokens are: where strings and literals end, which items are keys |
| `ScrubJson`, `ScrubLexing`, `ScrubDocument`, `ScrubLimits` | the scrubber on well-formed documents (sections 2 and 7 of RFC 8259, blanks included), against a recursive walk of the document |
| `ScrubCase`, `ScrubRows` | the case of keys in documents and paths; inputs of several documents one after the other |
| `TypeRegistry`, `TypeRecord` | the client generator's registry of named types, and how complete its record of references is |
| `TypeSubst`, `TypeLimits` | making generic schema types concrete, with types as values |
| `TypeCells`, `TypeCopies`, `TypeInPlace`, `TypeSettled`, `TypeFrame`, `TypeOpen`, `TypeExamples` | the same with types as cells of a store, which are shared and rewritten in place: when a call does what it does on values, what it leaves alone, and how arguments come to be tied into circles |
| `SteadyState` | the Postgres proxy's steady-state copier: three goroutines, four channels |
| `Scram` | the proxy's SCRAM-SHA-256 client, against a server that follows section 3 of RFC 5802 |
| `Debouncer` | the debouncer of code regeneration |
| `Promise` | promises and their callback lists |
| `TarStream` | the tar stream over segments |
| `Vfs` | the virtual file system |
| `LookPath`, `LookPathNames` | the sorted environment list and its binary search |
| `TraceReader` | varints, zigzag numbers and byte strings in trace streams |
| `Identifiers`, `IdentifierForms` | identifier splitting and case conversion |
| `NameAlloc`, `Decimal`, `Common` | the collision-free name allocator; decimal numbers; shared types |

## Limits the proofs bring out

Where a promise one would expect does not hold for all inputs, the code is modelled as it is, and a theorem says for
exactly which inputs the promise is kept, or shows an input for which it is not.

- The scrubber reports exact spans only for parts whose first byte is not followed by a blank
  (`ScrubDocument.SpansAreExactIffTight`), selects correctly for all paths only in documents in which no object
  holds a string value starting with a colon or a key starting with a blank (`ScrubLimits.SelectionForAllPathsIff`;
  `{" a":1}` is `ScrubLimits.BlankKeyIsMissed`), matches case-sensitive names in the spelling given first
  (`ScrubPaths.TreeCovers`, `ScrubPaths.GroupedFaithfullyIffCompatible`), never ends on some paths if a bracket is
  left open (`ScrubSafety.EndsForAllPathsIffClosed`), ignores `MapValue` entries
  (`ScrubLimits.MapValuePathsReportNothing`), and reads two literals in a row apart only if the first has more than
  one byte and a blank behind it (`ScrubRows.RowsLexIffApart`; `1 2` is `ScrubRows.DigitsRunTogether`).
- The registry's `declRefs` is not the transitive closure of the references (`TypeRegistry.RecordIsPartial`): of
  what is discovered later it holds exactly what is reached without passing an earlier declaration
  (`TypeRecord.LaterIsRecordedIff`), and gaps start on cycles (`TypeRecord.GapsStartLate`). Cycles are broken all
  the same (`TypeRegistry.CyclesAreBroken`).
- A cloned tar stream seeks from the end correctly only if it is empty (`TarStream.CloneSeeksFromEndIffEmpty`).
- The environment lookup takes `A=B=c` for a match of the name `A=B`, and slices past the end if the name is itself
  an entry (`LookPath.ComparatorFindsNameIff`, `LookPath.Get`).
- `resolveTypeParams` leaves type parameters inside unions (`TypeSubst.ResolveIsSubstIff`), and `GetConcreteType`
  ignores the caller's arguments for a bare name (`TypeLimits.BareNameIsConcreteIff`).
- `GetConcreteType` never returns if it enters a declaration twice with, or twice without arguments
  (`TypeSettled.RepeatedVisitNeverReturns`). If each of its passes over a `*T` or `Option[T]` is made with closed
  arguments, that is the only way not to return (`TypeSettled.SettledReturnsIff`), and it indexes out of range
  exactly if a pass meets a parameter without an argument (`TypeSettled.SettledPanicsIff`).
- With other arguments there are further ways, because passes put argument objects into types and rewrite them
  there. An argument that mentions its own parameter is tied into a circle (`TypeOpen.SelfMentionIsCircular`), on
  which the next pass goes round for ever (`TypeOpen.SelfMentionNeverDone`): `V[string]`, for
  `type T[A any] *struct{ a A }` and `type V[A any] *T[[]A]`, is `TypeExamples.SharedArgumentNeverReturns`. One that
  mentions a parameter beyond the arguments lets no pass over it return (`TypeOpen.WrappedDeclNeverDone`).
- A call can even rewrite a declaration, so that later calls get other types
  (`TypeExamples.CallChangesDeclaration`); which calls cannot is `TypeFrame.TameKeepsStore`.
- Going through SCREAMING_SNAKE_CASE can split words that contain digits (`Identifiers.ScreamingIsStableIff`).
- The SCRAM client turns down a server-first message with extensions, which RFC 5802 allows
  (`Scram.ExtensionIsNotAcceptable`).

## Model

| member | source | states |
|---|---|---|
| `ScrubScanner.ItemsAreChained` | pkg/scrub/scanner.go:48-116 | for every byte string, NUL bytes and malformed text included, token spans are non-empty, inside the input, in order and disjoint |
| `ScrubScanner.BytesAreJson` | pkg/scrub/scanner.go:90-166 | blanks, structural bytes and delimiters are those of section 2 of RFC 8259 |
| `ScrubScanner.Scanner.ReadByte` | pkg/scrub/scanner.go:194-214 | position and end-of-input flag after one byte, pushed-back or new; a byte other than NUL can be unread |
| `ScrubScanner.Scanner.Unread` | pkg/scrub/scanner.go:216-222 | undoes one read; its precondition, met at every call, keeps the double-unread panic unreachable |
| `ScrubScanner.Scanner.ReadToken` | pkg/scrub/scanner.go:170-180 | skips blanks and takes the next byte |
| `ScrubScanner.Scanner.PeekToken` | pkg/scrub/scanner.go:184-190 | finds the next byte behind blanks and leaves it to be read |
| `ScrubScanner.Scanner.ScanString` | pkg/scrub/scanner.go:118-147 | stops behind the closing quote, escapes respected, or at the end of input |
| `ScrubScanner.Scanner.ScanLiteral` | pkg/scrub/scanner.go:149-166 | stops in front of the byte that ends the literal |
| `ScrubScanner.Scanner.ScanOneItem` | pkg/scrub/scanner.go:86-116 | the stateful scan of one token gives the item, neighbours and position of the stateless one |
| `ScrubScanner.Scanner.ScanItem` | pkg/scrub/scanner.go:48-81 | adds the key flag from the bracket stack and updates the stack |
| `ScrubScanner.Scanner.Next` | pkg/scrub/scanner.go:26-29 | delivers the items of the input one at a time and reports false exactly when they are used up |
| `ScrubTokens.StringEndIs` | pkg/scrub/scanner.go:118-147 | over escaped and ordinary bytes a string goes on; it ends behind the first unescaped quote or NUL, in front of a line end, and at the end of the text even behind a backslash |
| `ScrubTokens.LiteralEndIs` | pkg/scrub/scanner.go:149-166 | a literal ends in front of the first delimiter, behind the first NUL, or with the text |
| `ScrubTokens.FlagsAre` | pkg/scrub/scanner.go:51-66 | in an object an item in front of a colon is a key and one behind a colon is not; without colons keys and values alternate, a key first |
| `ScrubPaths.BuildNodes` | pkg/scrub/scrub.go:269-329 | the loop over the paths builds the specified tree |
| `ScrubPaths.NameMatchesIff` | pkg/scrub/scrub.go:194-203 | a name matches a text if and only if they are equal byte for byte or, without regard to case, differ at most in the case of ASCII letters |
| `ScrubPaths.FindChild` | pkg/scrub/scrub.go:270-294 | the search loop finds the first child that counts as the same entry, or none |
| `ScrubPaths.AddPath` | pkg/scrub/scrub.go:300-327 | the loop over the entries, with its parent moving down the tree and stopping at a scrubbed node, threads the path as specified |
| `ScrubPaths.TreeCovers` | pkg/scrub/scrub.go:269-329 | for every list of paths and every address: the tree covers the address exactly when some path does, case-sensitive names taken in their first spelling |
| `ScrubPaths.ConsistentTreeCovers` | pkg/scrub/scrub.go:269-329 | with consistently spelled case-sensitive names the tree covers exactly what the paths cover |
| `ScrubPaths.SecondSpellingIsLost` | pkg/scrub/scrub.go:285-289 | for any two case-sensitive names that differ only in case: the path given second covers its field, and the tree does not |
| `ScrubPaths.GroupedFaithfullyIffCompatible` | pkg/scrub/scrub.go:269-329 | for any collection of entries, the tree covers what the paths cover for all lists of paths over them if and only if no two of them are case-sensitive and differ only in case |
| `ScrubStream.Stream.Next` | pkg/scrub/scrub.go:235-253 | the walker's view of the remaining tokens moves on by one, and stays at the end |
| `ScrubStream.Stream.SkipValue` | pkg/scrub/scrub.go:169-187 | skips exactly to where the bracket depth returns to zero, with the span of what was skipped, or is the loop that never ends |
| `ScrubStream.Stream.HasScrubNode` | pkg/scrub/scrub.go:226-233 | whether the current value is to be scrubbed as a whole |
| `ScrubStream.Stream.MatchingMapNodes` | pkg/scrub/scrub.go:189-211 | which nodes are kept: at a key the children of the nodes for keys, elsewhere of those for values; and for the value behind it the children of exactly the field nodes whose name the key bears, letter case counting only if the node says so |
| `ScrubStream.Stream.ProcessValue` | pkg/scrub/scrub.go:112-132 | the stateful walk of a value consumes and reports what the walk over the token list does |
| `ScrubStream.Stream.ProcessArray` | pkg/scrub/scrub.go:134-146 | the same for an array |
| `ScrubStream.Stream.ProcessObject` | pkg/scrub/scrub.go:148-167 | the same for an object |
| `ScrubStream.Stream.Process` | pkg/scrub/scrub.go:102-108 | the same for the whole stream |
| `ScrubStream.JSONIndices` | pkg/scrub/scrub.go:73-77 | scanner, tree and walker together compute `Indices`, for every input and all paths; what that is on documents is stated by `ScrubDocument.IndicesAreSelection`, `ScrubCase.FieldNameFinds` and `ScrubRows.JSONCensorsRows` |
| `ScrubSafety.BoundsAreOrdered` | pkg/scrub/scrub.go:102-187 | for every byte string and all paths the bounds are non-empty, inside the input, strictly ordered and disjoint |
| `ScrubSafety.NewLenIsSpliceLen` | pkg/scrub/scrub.go:41-54 | the length computed beforehand is the length of the splice |
| `ScrubSafety.ScrubBytes` | pkg/scrub/scrub.go:41-66 | the result is exactly the gaps with the replacement between them; no copy is cut short and no byte of the buffer is left over |
| `ScrubSafety.JSON` | pkg/scrub/scrub.go:36-39 | the composition: hangs or yields the splice of the reported bounds |
| `ScrubSafety.ClosedInputsEnd` | pkg/scrub/scrub.go:169-187 | if every bracket opened before the first NUL outside brackets is closed before it, scrubbing ends, whatever the bytes and paths |
| `ScrubSafety.EndsForAllPathsIffClosed` | pkg/scrub/scrub.go:169-187 | for every byte string: scrubbing ends for all lists of paths if and only if those brackets are closed |
| `ScrubSafety.NulFreeEndsIffClosed` | pkg/scrub/scrub.go:169-187 | without NUL bytes: if and only if all brackets are closed |
| `ScrubLexing.LexDocument` | pkg/scrub/scanner.go:48-116 | the tokens of every well-formed document, kinds, spans and key flags, read off its tree |
| `ScrubJson.PickIsSelect` | pkg/scrub/scrub.go:112-211 | without colon strings and keys that start with a blank, what the tree of nodes picks on the way down is what the paths select by address, keys as written |
| `ScrubJson.ReportedIsActualIffTight` | pkg/scrub/scanner.go:86-116 | a list of parts is reported at its true spans if and only if no part's first byte is followed by a blank |
| `ScrubDocument.IndicesArePicked` | pkg/scrub/scrub.go:73-211 | for every well-formed document and all paths, the bounds are those of the parts picked on the document's tree |
| `ScrubDocument.IndicesAreSelection` | pkg/scrub/scrub.go:73-211 | for every well-formed document without colon strings and without keys that start with a blank: the bounds are, in document order, those of the outermost parts some path covers by the keys as written (arrays transparent, shorter paths absorbing longer ones), names compared byte for byte or up to the case of ASCII letters |
| `ScrubDocument.ConsistentIndicesAreSelection` | pkg/scrub/scrub.go:73-211 | the same with the paths as written, if case-sensitive names are spelled consistently |
| `ScrubDocument.SpansAreExactIffTight` | pkg/scrub/scanner.go:86-116 | the bounds are the true spans of the selected parts if and only if each of them is tight |
| `ScrubDocument.JSONCensorsDocument` | pkg/scrub/scrub.go:36-66 | the scrubbed text is the rendering of the document with exactly the selected parts replaced |
| `ScrubCase.KeyCaseIsIgnored` | pkg/scrub/scrub.go:194-203 | for every well-formed document and paths that do not ask for case: writing any of its keys in another case changes nothing of what is reported |
| `ScrubCase.FieldNameFinds` | pkg/scrub/scrub.go:189-211 | a path of one field name reports, in document order, exactly the values stored under that key, or under that key in any case if the path does not ask for case |
| `ScrubCase.CaseChangeLosesField` | pkg/scrub/scrub.go:199-203 | if all keys of an object are a name in other cases, a path that asks for case finds nothing and one that does not finds every one of the members |
| `ScrubCase.OtherCaseIff` | pkg/scrub/scrub.go:199-203 | there is such another case if and only if the name has a letter |
| `ScrubRows.RowsLexIffApart` | pkg/scrub/scanner.go:86-166 | for any well-formed values one after the other, the tokens are those of the values in turn if and only if no literal is followed by another without a blank between them or from a single byte on |
| `ScrubRows.RowsArePickedInTurn` | pkg/scrub/scrub.go:102-108 | then each of the values is scrubbed as on its own, at its place |
| `ScrubRows.JSONCensorsRows` | pkg/scrub/scrub.go:36-66 | then, if the selected parts are tight, exactly these are replaced in every one of the values, and all else is kept byte for byte |
| `ScrubRows.DigitsRunTogether` | pkg/scrub/scanner.go:86-114 | `1 2` is read as one literal, from the blank on |
| `ScrubLimits.SelectionForAllPathsIff` | pkg/scrub/scanner.go:58-89 | the bounds are the selection for all paths if and only if no object of the document holds a colon string or a key that starts with a blank |
| `ScrubLimits.MissedOffender` | pkg/scrub/scanner.go:58-89 | for every document with a colon string or such a key, a path for which the result is wrong |
| `ScrubLimits.BlankKeyMatchesNothing` | pkg/scrub/scrub.go:194-203 | the text the scanner leaves of a key that starts with a blank matches no quoted name, in any case |
| `ScrubLimits.NamedMemberIsFoundIff` | pkg/scrub/scanner.go:86-89 | the one member of an object, named by a path, is found if and only if its key does not start with a blank |
| `ScrubLimits.BlankKeyIsMissed` | pkg/scrub/scanner.go:86-89 | the field `" a"` of `{" a":1}` is not scrubbed |
| `ScrubLimits.MapValuePathsReportNothing` | pkg/scrub/scrub.go:159-208 | paths with a `MapValue` entry never report anything, on any document without colon strings |
| `TypeRegistry.CyclesAreBroken` | pkg/clientgen/types.go:101-148 | for all declarations and any order of visits, every cycle of references among visited declarations has a link that is a recursive reference |
| `TypeRegistry.RecursiveRefsAreMutual` | pkg/clientgen/types.go:146-148 | a recursive reference joins declarations that reach each other |
| `TypeRegistry.RecordIsPartial` | pkg/clientgen/types.go:119-144 | a declaration graph in which the record misses a reachable declaration |
| `TypeRecord.CompleteWithoutCycles` | pkg/clientgen/types.go:101-144 | where no two declarations reachable from a visited one refer to each other, its record is exactly what can be reached from it |
| `TypeRecord.LaterIsRecordedIff` | pkg/clientgen/types.go:101-144 | a declaration discovered after another is in its record if and only if a walk leads there through declarations discovered no earlier than that other |
| `TypeRecord.GapsStartLate` | pkg/clientgen/types.go:119-144 | a record has a gap only if one of a reachable declaration has, that lies on a cycle with an earlier discovered one |
| `TypeRegistry.VisitIdsExtends` | pkg/clientgen/types.go:101-144 | what each visit adds: a block of newly finished declarations whose references are recorded, and nothing is taken back |
| `TypeRegistry.DiscoversExactlyReachable` | pkg/clientgen/types.go:13-144 | the declarations found are exactly those reachable from the given references, a step leading from a declaration to every one that some part of its type names, however deep and as a type argument too |
| `TypeRegistry.RefsAreMentions` | pkg/clientgen/types.go:63-144 | the references of a type are exactly the declarations named at some path of children through it, over all kinds of types |
| `TypeRegistry.RefsInOrder` | pkg/clientgen/types.go:63-144 | and they are visited in the order in which the type is written, a name before its arguments |
| `TypeRegistry.RootsAre` | pkg/clientgen/types.go:20-35 | the roots are the handshake, request and response types of every non-private endpoint of a chosen service and the parameters of the auth handler, and nothing else |
| `TypeRegistry.ListsExactlyExposed` | pkg/clientgen/types.go:13-144 | what the walk from the roots lists is exactly what some root mentions or what can be reached from there |
| `TypeRegistry.VisitIdsDistinct` | pkg/clientgen/types.go:101-117 | no declaration is listed twice |
| `TypeRegistry.GroupedByPackage` | pkg/clientgen/types.go:101-117 | each package lists exactly its own discovered declarations, in order of discovery |
| `TypeRegistry.Registry.Visit` | pkg/clientgen/types.go:63-99 | the visitor, which terminates on cyclic declarations, makes the specified walk over the references of the type, lists every declaration the type mentions, and restores the current declaration |
| `TypeRegistry.Registry.VisitDeclaration` | pkg/clientgen/types.go:101-117 | the same for one declaration |
| `TypeRegistry.Registry.VisitNamed` | pkg/clientgen/types.go:119-144 | the same for a named type and its arguments |
| `TypeRegistry.GetNamedTypes` | pkg/clientgen/types.go:13-38 | the declarations listed are exactly those that a root mentions or that can be reached from one, and they are visited in one walk |
| `TypeSubst.SubstComposes` | parser/encoding/rpc.go:495-528 | two parallel substitutions in a row are one with composed arguments |
| `TypeSubst.ResolveIsSubstIff` | parser/encoding/rpc.go:495-528 | with closed arguments, resolving is parallel substitution, and leaves no parameter, if and only if no union mentions one |
| `TypeSubst.TwoStep` | parser/encoding/rpc.go:421-461 | a declaration resolved with its own arguments and then with the outer ones is one substitution with composed arguments |
| `TypeSubst.DepthIsEnough` | parser/encoding/rpc.go:478-480 | the result does not depend on the bound on entered declarations once it is reached |
| `TypeSubst.ConcreteIsExpansion` | parser/encoding/rpc.go:347-491 | for every type of the supported shapes and closed arguments, none included: the result is the type with the names on its spine expanded and everything substituted, and is closed |
| `TypeLimits.BareNameIsConcreteIff` | parser/encoding/rpc.go:478-480 | a bare name of a flat declaration becomes the intended type if and only if every parameter the declaration mentions is given a closed argument |
| `TypeLimits.DeeperIffVisits` | parser/encoding/rpc.go:421-480 | how many declarations a call enters is read off the names on the spines of the declarations |
| `TypeLimits.NestedPointerPanics` | parser/encoding/rpc.go:421-440 | a declaration and arguments for which an index is out of range |
| `TypeLimits.SelfPointerNeverReturns` | parser/encoding/rpc.go:421-480 | a declaration that is entered again at every depth |
| `TypeCells.GetFuel` | parser/encoding/rpc.go:347-528 | on cells, shared and rewritten as in the code: a result does not depend on the fuel once there is enough, so that a call returns in one way or never |
| `TypeCopies.CloneCopies` | parser/encoding/rpc.go:360-364 | a deep copy is a tree of new cells, of the same type, and leaves the store as it was |
| `TypeCopies.PassFresh` | parser/encoding/rpc.go:360-528 | a pass over a fresh copy, whatever its arguments: it panics exactly if a parameter is out of range, else the result is that of values, and nothing outside the copy changes |
| `TypeInPlace.PassInPlace` | parser/encoding/rpc.go:495-528 | a pass with closed arguments over types that share cells with each other and with the arguments, some of them already rewritten by it: it panics exactly if a parameter is out of range, else the result is that of values, and every other type changes at most where it has parameters |
| `TypeSettled.SettledOutcome` | parser/encoding/rpc.go:347-528 | if every pass over `*T` or `Option[T]` on the way is made with closed arguments, the call returns, panics or reports the unsupported type as it does on values, with that type as result, unions' parameters aside, and every closed type in the store as it was |
| `TypeSettled.RepeatedVisitNeverReturns` | parser/encoding/rpc.go:421-480 | for any store and any arguments: entering a declaration twice with, or twice without arguments means that the call never returns |
| `TypeSettled.SettledReturnsIff` | parser/encoding/rpc.go:347-528 | if every pass over `*T` or `Option[T]` is made with closed arguments: it never returns if and only if it enters a declaration twice with, or twice without arguments |
| `TypeSettled.SettledPanicsIff` | parser/encoding/rpc.go:347-528 | if so, and if it returns: it panics if and only if a declaration is missing or one of its passes meets a parameter without argument |
| `TypeFrame.TameKeepsStore` | parser/encoding/rpc.go:347-528 | a call changes no type and no declaration there was, if names that stand by themselves on its way have closed arguments and what is returned uncopied is closed |
| `TypeFrame.CellsExpand` | parser/encoding/rpc.go:347-528 | for every type of the supported shapes and closed arguments: the call returns a cell of exactly the expanded type, and every cell there was is as it was |
| `TypeOpen.PassRewires` | parser/encoding/rpc.go:495-528 | any pass over any store only replaces links to parameters by their arguments, and returns the type it was given unless that is a parameter |
| `TypeOpen.StuckNeverDone` | parser/encoding/rpc.go:495-528 | a pass does not return once it enters cells each of which is a parameter without argument or has one of them below it, whatever else it rewrites on the way |
| `TypeOpen.FillPath` | parser/encoding/rpc.go:495-528 | after a pass, every path that led to a parameter leads to its argument, shared cells or not |
| `TypeOpen.SelfMentionIsCircular` | parser/encoding/rpc.go:421-480 | a name of a declaration `*T` or `Option[T]`, T flat and with a parameter whose argument is a type around that same parameter: a result is a circle |
| `TypeOpen.CircularIsNoType` | parser/encoding/rpc.go:495-528 | a cell from which one comes to a circle is no type |
| `TypeOpen.SelfMentionNeverDone` | parser/encoding/rpc.go:421-461 | such a name inside pointers and options, with any arguments, never gets a result |
| `TypeOpen.WrappedDeclNeverDone` | parser/encoding/rpc.go:421-461 | nor does a name of such a declaration, if the argument for a parameter T mentions itself mentions one beyond the arguments |
| `TypeExamples.SharedArgumentNeverReturns` | parser/encoding/rpc.go:421-528 | declarations and a call that returns a type on values, with no declaration entered twice and no parameter out of range, and never returns on cells |
| `TypeExamples.CallChangesDeclaration` | parser/encoding/rpc.go:421-528 | declarations and a call that rewrites one of them, and what the same call with another argument then returns |
| `SteadyState.ReachableInv` | pkg/pgproxy/pgproxy.go:495-565 | the invariant that ties the positions of the three goroutines, the channels and the traffic together holds in every reachable state |
| `SteadyState.ForwardsInOrder` | pkg/pgproxy/pgproxy.go:495-565 | in every interleaving each direction forwards a prefix of what it received, at most one message behind, and nothing follows a Terminate |
| `SteadyState.BufferIsNotReused` | pkg/pgproxy/pgproxy.go:495-565 | the next client Receive, which reuses the message buffer, never begins before the previous message has been sent |
| `SteadyState.NilResultIsExplained` | pkg/pgproxy/pgproxy.go:540-565 | a nil result means that the server hung up or a Terminate was forwarded |
| `SteadyState.ErrorResultIsExplained` | pkg/pgproxy/pgproxy.go:501-565 | an error is returned only if a Receive or Send of the run failed with that very error |
| `SteadyState.NoFailureMeansNil` | pkg/pgproxy/pgproxy.go:495-565 | in a run without a failed call the result can only be nil |
| `SteadyState.FirstReportWins` | pkg/pgproxy/pgproxy.go:548-551 | if the main loop takes a result, it is the one reported first, and it is what is returned |
| `SteadyState.LogsAreEvents` | pkg/pgproxy/pgproxy.go:508-565 | what counts as received and sent is what the events of the run deliver and accept |
| `SteadyState.QuietSessionsGoOn` | pkg/pgproxy/pgproxy.go:508-565 | as long as nobody hangs up or terminates and no call fails, both tasks and the main loop are at work |
| `SteadyState.ForwardsToServer` | pkg/pgproxy/pgproxy.go:528-563 | from every reachable state at work, all that the client has sent and one more message reach the server within seven events |
| `SteadyState.ForwardsToClient` | pkg/pgproxy/pgproxy.go:508-526 | and one more message of the server reaches the client within four |
| `SteadyState.SessionEnds` | pkg/pgproxy/pgproxy.go:495-565 | after a hang-up or a forwarded Terminate, with no failed call, the session can end within five events without further traffic, and returns nil |
| `SteadyState.NeverWedges` | pkg/pgproxy/pgproxy.go:495-565 | the error channel never exceeds its capacity, every report and acknowledgement that is due can be made, and some event is possible until all have exited |
| `SteadyState.NoSilentExit` | pkg/pgproxy/pgproxy.go:495-565 | each goroutine that has exited has left its result |
| `SteadyState.WindsDown` | pkg/pgproxy/pgproxy.go:495-565 | from any reachable state with done closed, every run has at most seven more events |
| `SteadyState.DoneUnblocks` | pkg/pgproxy/pgproxy.go:495-565 | with done closed every remaining channel operation of both goroutines is enabled |
| `Scram.ComputeClientProof` | pkg/pgproxy/scram.go:240-253 | the loop computes the encoded exclusive or of client key and client signature |
| `Scram.Client.RecvServerFirstMessage` | pkg/pgproxy/scram.go:154-207 | accepts a message if and only if it splits into an extension of the client's nonce, a salt that decodes and a positive count, and then holds exactly those |
| `Scram.Client.ClientFinalMessage` | pkg/pgproxy/scram.go:209-218 | the message that a server accepts which holds only what enrolment stores, keeps its own transcript of the exchange and joins its own auth message; it answers with the signature the client then expects |
| `Scram.Client.RecvServerFinalMessage` | pkg/pgproxy/scram.go:220-232 | accepts the one message signed with the shared key over the exchange, and no other |
| `Scram.ServerAccepts` | pkg/pgproxy/scram.go:209-261 | the same on messages: the proof, taken off the signature the server computes over its own transcript, hashes to the stored key |
| `Scram.BeginsWith` | pkg/pgproxy/scram.go:149-207 | the server splits the client-first message into GS2 header, user name and nonce, and answers with a server-first message in the form the client reads |
| `Scram.ExtensionIsNotAcceptable` | pkg/pgproxy/scram.go:181-196 | a server-first message with an extension behind the count is never accepted |
| `Scram.Exchange` | pkg/pgproxy/scram.go:47-95 | with a server that follows RFC 5802 on its own transcript and knows the password, the exchange completes and convinces both sides, for all nonces, salts and counts; without the mechanism it fails at once |
| `Debouncer.ReachableInv` | cli/daemon/watch.go:69-95 | the invariant of mutex, flags and callbacks holds in every reachable state |
| `Debouncer.OneRunAtATime` | cli/daemon/watch.go:69-95 | in every interleaving at most one callback executes doRun |
| `Debouncer.NoEventIsLost` | cli/daemon/watch.go:69-95 | whenever nothing runs, every callback that ever took the mutex, other than its holder, has been followed by a run that started later |
| `Debouncer.PendingIsRequested` | cli/daemon/watch.go:69-95 | while an event is pending the flag is set or some callback is about to set it or to start a run |
| `Debouncer.RunsAreCaused` | cli/daemon/watch.go:69-95 | there are never more runs than callbacks |
| `Debouncer.NeverStuck` | cli/daemon/watch.go:69-95 | unless all callbacks have finished one of them can go on |
| `Debouncer.LogIsComplete` | cli/daemon/watch.go:69-95 | the log these statements speak of is complete: a callback is in it if and only if it has moved, and a run is open in it if and only if doRun is being executed |
| `Promise.ReachableInv` | pkg/promise/prom.go:35-53 | the invariant of mutexes, lists and callers holds in every reachable state |
| `Promise.AtMostOnce` | pkg/promise/prom.go:77-104 | in every interleaving of registrations and settlement no callback is invoked twice |
| `Promise.OnlyTheSettledSide` | pkg/promise/prom.go:35-53 | a callback that has been invoked is on the settled side and got the settled value |
| `Promise.ExactlyOnce` | pkg/promise/prom.go:77-104 | when settlement and registration have ended, a callback on the settled side has been invoked exactly once, one on the other side never |
| `Promise.CallbacksGetTheOutcome` | pkg/promise/prom.go:35-104 | told by the moves of the run: once a promise has been settled with a value on a side, a registered callback has been given that value, once, if it was registered for that side, and has not been called if not |
| `Promise.OneOutcome` | pkg/promise/prom.go:35-53 | a settled promise is not settled again and keeps side and value |
| `Promise.UnlockedReadsAreSafe` | pkg/promise/prom.go:84-104 | nobody appends while the list is read without the mutex, and a value read without it has been stored for good |
| `Promise.NeverStuck` | pkg/promise/prom.go:77-104 | while anybody has something left to do, somebody can do it |
| `TarStream.PadReadAt` | pkg/tarstream/datavec.go:93-104 | writes the zeros of the segment at the offset and leaves the rest of the buffer alone |
| `TarStream.Offsets` | pkg/tarstream/tarstream.go:13-30 | the prefix sums of the segments and the size of their concatenation |
| `TarStream.SearchEnds` | pkg/tarstream/tarstream.go:76-78 | binary search for the first segment that ends behind the position |
| `TarStream.ReadIsFlat` | pkg/tarstream/tarstream.go:99-129 | a read inside the located segment returns the bytes of the concatenation, and is empty only at its end or for an empty buffer |
| `TarStream.TarVec.constructor` | pkg/tarstream/tarstream.go:13-30 | a new stream stands at the start and knows its size |
| `TarStream.TarVec.CloneOf` | pkg/tarstream/tarstream.go:55-62 | a clone keeps segments and position, and has size zero |
| `TarStream.TarVec.GetReader` | pkg/tarstream/tarstream.go:64-96 | cached or newly opened, the reader is the one for the current position; EOF exactly behind the last byte |
| `TarStream.TarVec.Read` | pkg/tarstream/tarstream.go:99-129 | delivers the located bytes, advances by their number, and reaches none of the three panics |
| `TarStream.TarVec.Seek` | pkg/tarstream/tarstream.go:132-154 | the new position is the offset counted from the start, the current position or the size; the seek is refused, and the position stays, exactly if that is negative or the mode unknown |
| `TarStream.RunsAreFlat` | pkg/tarstream/tarstream.go:99-154 | any run of reads and seeks answers like a reader over the concatenation, reads giving its next bytes and seeks counting from its start, its current position or its end, for a clone as long as nothing seeks from the end |
| `TarStream.SeekLeavesPosition` | pkg/tarstream/tarstream.go:132-154 | a refused seek goes unnoticed by all that follows; a relative seek by zero tells the position and does not change it |
| `TarStream.SeeksCompose` | pkg/tarstream/tarstream.go:132-154 | two relative seeks are one by their sum, and an absolute one forgets those before |
| `TarStream.SeekEndLeaves` | pkg/tarstream/tarstream.go:99-154 | a seek to k bytes before the end and reads with any buffers deliver exactly the last k bytes, wherever the stream stood |
| `TarStream.ShortReadsEndSegments` | pkg/tarstream/tarstream.go:99-129 | a read never goes over the end of a segment, and stops short of its buffer only there |
| `TarStream.Perform` | pkg/tarstream/tarstream.go:99-154 | a series of reads and seeks on an object gives exactly those answers |
| `TarStream.CloneSeeksFromEndIffEmpty` | pkg/tarstream/tarstream.go:55-62 | a clone seeks from the end correctly if and only if the stream is empty |
| `TarStream.ReadingDelivers` | pkg/tarstream/tarstream.go:99-129 | reading on with buffers of any sizes delivers the whole rest, each byte once |
| `Vfs.SplitPath` | pkg/vfs/vfs.go:183-183 | directory part and file name put together are the path, and the file name has no slash |
| `Vfs.AddDirGrows` | pkg/vfs/vfs.go:198-225 | AddDir only adds directories: what was there keeps its place and its files |
| `Vfs.AddDirNormalises` | pkg/vfs/vfs.go:198-225 | AddDir leads to the lexically normalised path and fails exactly when that climbs above the root |
| `Vfs.OpSetsOneFile` | pkg/vfs/vfs.go:182-225 | an AddFile or AddDir, one that climbs above the root included, sets at most the one file it names and leaves the contents at every other path |
| `Vfs.ReplayIsLastAdded` | pkg/vfs/vfs.go:182-225 | after any sequence of calls each path holds the bytes last added there |
| `Vfs.ReadsTheMap` | pkg/vfs/vfs.go:117-140 | ReadFile of a valid path returns what the tree holds at it, and fails if it holds nothing |
| `Vfs.ReadBackIffValid` | pkg/vfs/vfs.go:36-83 | for every path: what AddFile stored is read back under the same path if and only if the path is valid and not the root |
| `Vfs.OpensWhatStandsThere` | pkg/vfs/vfs.go:36-140 | for every tree and name: ReadFile rejects exactly the invalid names, returns a file exactly if one stands there, says "not a file" exactly if a directory stands there and no file, and that nothing exists exactly if neither does |
| `Vfs.AddDirMakes` | pkg/vfs/vfs.go:198-225 | the directories there are after AddDir are those there were and those the path comes through, parents and `..` included |
| `Vfs.AddedDirOpens` | pkg/vfs/vfs.go:36-225 | after AddDir of a valid path Open gives the directory at that path, unless a file bears its name |
| `Vfs.SubReadsJoinedPath` | pkg/vfs/vfs.go:143-164 | reading below a sub-directory is reading the joined path |
| `Vfs.FileSystem.AddDir` | pkg/vfs/vfs.go:198-225 | the walk over parent and child links makes the specified directories |
| `Vfs.FileSystem.AddFile` | pkg/vfs/vfs.go:182-195 | the new tree, also where the source runs into the missing directory |
| `Vfs.FileSystem.Open` | pkg/vfs/vfs.go:36-83 | the moving directory variable ends where path resolution does, errors included |
| `Vfs.FileSystem.ReadFile` | pkg/vfs/vfs.go:117-140 | contents, or the error for a directory, a missing or an invalid name |
| `Vfs.FileSystem.Sub` | pkg/vfs/vfs.go:143-164 | a file system on the same store, rooted where Open leads, if that is a directory |
| `LookPath.SortStable` | internal/lookpath/lookpath.go:182-196 | sorted by key, entries with equal keys in their original order |
| `LookPath.StableSortIsUnique` | internal/lookpath/lookpath.go:182-196 | any stable sort gives the same list |
| `LookPath.SortKeepsLast` | internal/lookpath/lookpath.go:182-196 | stable sorting does not change the last value of any name |
| `LookPath.DeleteOverridden` | internal/lookpath/lookpath.go:198-216 | the in-place deletion loop computes the specified deduplication |
| `LookPath.DedupKeepsLast` | internal/lookpath/lookpath.go:198-216 | deduplication keeps the last value of every name |
| `LookPath.DedupOfSorted` | internal/lookpath/lookpath.go:198-216 | on a sorted list it leaves each name once |
| `LookPath.ListEnviron` | internal/lookpath/lookpath.go:170-217 | the list is strictly sorted, holds valid entries only, and each name has the last value given |
| `LookPath.ComparatorFollowsKeys` | internal/lookpath/lookpath.go:222-242 | the search comparator orders entries as their sort keys do |
| `LookPath.ComparatorIsMonotone` | internal/lookpath/lookpath.go:222-242 | along a strictly sorted list it rises and is zero at most once |
| `LookPath.ComparatorFindsNameIff` | internal/lookpath/lookpath.go:222-242 | it finds entries by their name for exactly the names without '=' behind the first character |
| `LookPath.Get` | internal/lookpath/lookpath.go:222-242 | binary search: the text behind the entry's name or the empty string; the slice runs past the end exactly if the name is itself an entry |
| `LookPath.LookupEnv` | internal/lookpath/lookpath.go:170-242 | building and searching yield the last assignment of the original environment, in upper mode too |
| `LookPathNames.EntryIsNameAndValue` | internal/lookpath/lookpath.go:198-207 | an entry is a name, the first `=` and a value, in one way only |
| `LookPathNames.CompareIsLexicographic` | internal/lookpath/lookpath.go:182-196 | the order is that of the first differing bytes, prefixes first |
| `LookPathNames.UpperNameIs` | internal/lookpath/lookpath.go:172-180 | upper mode changes the letters of names and nothing else: values and invalid entries stay as written |
| `LookPathNames.MergedIffSameName` | internal/lookpath/lookpath.go:172-215 | in upper mode two entries are merged if and only if their names differ at most in the case of ASCII letters |
| `LookPathNames.UpperModeFinds` | internal/lookpath/lookpath.go:170-242 | and a name finds the last entry for it in any case, with its value as written; one with a lower-case letter finds nothing |
| `LookPathNames.Lookup` | internal/lookpath/lookpath.go:170-242 | building and searching together do that, in either mode |
| `TraceReader.Reader.UVarint` | pkg/traceparser/binreader.go:140-156 | for every stream: the base-128 number up to the first byte without continuation bit, modulo 2^64, with exactly those bytes consumed and counted; else zero and EOF |
| `TraceReader.OneRound` | pkg/traceparser/binreader.go:143-155 | or-ing in a shifted group adds it modulo 2^64, however far the shift |
| `TraceReader.UVarintRoundTrip` | pkg/traceparser/binreader.go:140-156 | every 64-bit value written in base 128 and followed by anything is read back, leaving exactly what follows |
| `TraceReader.StreamRoundTrip` | pkg/traceparser/binreader.go:140-156 | so is any series of values |
| `TraceReader.ZigZagBijection` | pkg/traceparser/binreader.go:184-192 | zigzag decoding and encoding are inverse bijections between words and signed numbers of any width |
| `TraceReader.Reader.Varint` | pkg/traceparser/binreader.go:129-138 | the signed reading of the varint |
| `TraceReader.Reader.Bytes` | pkg/traceparser/binreader.go:38-42 | the next bytes, zeros where the stream ended, with count and error |
| `TraceReader.Reader.FixedInt` | pkg/traceparser/binreader.go:102-127 | the signed reading of a little-endian word |
| `TraceReader.LittleEndianRoundTrip` | pkg/traceparser/binreader.go:113-127 | a word written little-endian is read back |
| `TraceReader.Reader.ByteString` | pkg/traceparser/binreader.go:81-89 | as many bytes as the length in front says |
| `TraceReader.ByteStringRoundTrip` | pkg/traceparser/binreader.go:81-89 | a byte string written with its length is read back whole |
| `Identifiers.ParseIdentifier` | pkg/idents/identifiers.go:59-130 | the character loop computes the specified parts |
| `Identifiers.PartsAreLetters` | pkg/idents/identifiers.go:59-130 | the parts, joined and lower-cased, are exactly the letters and digits of the identifier in order |
| `Identifiers.PartsAreWords` | pkg/idents/identifiers.go:88-111 | no part is empty or holds anything but letters and digits |
| `Identifiers.Convert` | pkg/idents/identifiers.go:20-55 | the in-place loop and the join compute the specified conversion |
| `Identifiers.ConvertKeepsLetters` | pkg/idents/identifiers.go:20-55 | conversion to any format keeps letters and digits and their order |
| `IdentifierForms.PascalForm` | pkg/idents/identifiers.go:33-47 | Pascal case is the words, each with its first letter in upper case and the rest as parsed, with nothing between |
| `IdentifierForms.CamelForm` | pkg/idents/identifiers.go:26-47 | camel case is Pascal case with the first word in lower case |
| `IdentifierForms.SeparatedForm` | pkg/idents/identifiers.go:36-51 | the other formats are the words in one case with the format's separator between |
| `IdentifierForms.HumpsParse` | pkg/idents/identifiers.go:88-130 | an identifier of capitalised words, each of which starts with two letters, with acronyms before, between or behind them is cut exactly where a capitalised word begins and where an acronym ends |
| `IdentifierForms.CamelHumpsParse` | pkg/idents/identifiers.go:88-130 | the same behind a first word in lower case |
| `Identifiers.ParseJoined` | pkg/idents/identifiers.go:59-130 | lower-case words joined by any separator parse back to themselves |
| `Identifiers.SnakeIsStable` | pkg/idents/identifiers.go:20-130 | snake-casing is idempotent and does not notice a kebab conversion before it, nor the other way round |
| `Identifiers.ScreamingIsStableIff` | pkg/idents/identifiers.go:88-111 | a screaming-snake conversion before it goes unnoticed if and only if every word is all digits, or starts with a letter and ends with one or has no other |
| `Identifiers.DigitSplitsTheWord` | pkg/idents/identifiers.go:95-108 | an identifier that does not survive |
| `NameAlloc.Allocator.Get` | pkg/namealloc/namealloc.go:22-37 | the loop terminates with the first free candidate, and marks it used |
| `Decimal.DecimalDigits` | pkg/namealloc/namealloc.go:22-37 | the numbers appended to names, as sent in SCRAM messages, are written in decimal, most significant digit first |
| `NameAlloc.FirstFree` | pkg/namealloc/namealloc.go:27-30 | among the candidates one is free, since the used names run out first |
| `NameAlloc.NamesAreDistinct` | pkg/namealloc/namealloc.go:19-37 | over any series of calls no name is returned twice, nor one used before |
| `NameAlloc.NeverReservedIff` | pkg/namealloc/namealloc.go:22-45 | for any test supplied, no run returns a reserved word if and only if no reserved word with an underscore, no unreserved word with a number from 2 on, and no reserved word with both is reserved |
| `NameAlloc.NeverAKeyword` | pkg/namealloc/namealloc.go:39-45 | with the default test no run returns a Go keyword |

## Left out

- Unicode: letters, digits and case are the ASCII ones in the scrubber's name folding, the identifiers and the environment's upper mode; `fs.ValidPath`'s check for valid UTF-8 is not modelled.
- The scrubber's tree is built by value, without the shared nodes through which the source grows it; its unread slot for items is never used by the source and is not modelled.
- ScrubDocument.JSONCensorsDocument: asks for tight parts, because for others the reported spans are not those of the parts (`ScrubDocument.SpansAreExactIffTight`).
- TypeRegistry.GetNamedTypes: asks that every reference names an existing declaration, with its position as its id, as the parser guarantees.
- TypeSubst.ConcreteIsExpansion: is stated for the shapes `IsPlain` describes; `TypeSettled` says of all types when a call returns and when it panics, not what other types become.
- TypeRecord.GapsStartLate: is stated in one direction; which earlier discovered declarations a late one records depends on how far their own visits had come.
- TypeLimits.NeverReturnsIff: speaks of types as values, and holds of the code under the condition of `TypeSettled.SettledReturnsIff`, which it supports.
- TypeLimits.PanicsIffOutOfRange: speaks of types as values in the same way, and supports `TypeSettled.SettledPanicsIff`.
- TypeLimits.WrappedDeclPanicsIff: speaks of types as values in the same way; the half of it that holds of the code is `TypeOpen.WrappedDeclNeverDone`.
- TypeSettled.SettledReturnsIff: asks for closed arguments in passes over `*T` and `Option[T]`. With open ones it depends on the order in which a pass comes by each argument, and how often, whether it returns; `TypeOpen` gives conditions under which it does not, not all of them.
- TypeSettled.SettledPanicsIff: asks for the same, for the same reason.
- TypeFrame.TameKeepsStore: is stated in one direction; a call that is not tame may still rewrite nothing.
- Types of the schema that are nil, and the arrangement of calls in `GetConcrete`: a bound on entered declarations stands for a call that returns.
- SCRAM: password normalisation, random nonces, the connection, and what the hash and base64 do beyond the four properties `Scram.Sound` lists; that a wrong password is turned down rests on the hash and is not stated.
- ScrubRows.JSONCensorsRows: asks for tight parts, for the same reason as `ScrubDocument.JSONCensorsDocument`.
- A promise whose function panics, cancellation of waiting, and `Wait2`/`Wait3`.
- `SteadyState` starts behind connection setup and authentication; cancellation requests and TLS are not modelled.
- The debouncer's timer: callbacks may start at any time.
- TarStream: real files behind a segment, failure to open one, and 64-bit overflow of offsets; contents have the length the segment claims.
- Vfs: modification times, `Stat`, `ReadDir` in batches and reading an opened file in chunks, which would only repeat the reading theorem of `TarStream`; links between directories are indices into one store.
- LookPath: the lookup of executables along PATH; the library's stable sort is an insertion sort here, and `LookPath.StableSortIsUnique` says why that does not matter.
- TraceReader: floats, times, strings repaired to UTF-8, and the events built from them; a byte string longer than memory.
- Identifiers: `GenerateSuggestion`, which only trims its input before converting it.
- Client code generation, the parser, the daemon and its gRPC handlers, HTTP caching, terminal output: I/O and text templates.
