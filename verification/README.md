# Verified models of the Matrix Authentication Service

A Dafny 4.11 project that models the core protocols, trees and codecs of the service and proves
properties of them over all inputs, all runs and all reachable states. `dafny verify dfyconfig.toml`
checks everything.

| module | models |
|---|---|
| `Listener` | the server loop that accepts, serves and drains connections, as a machine whose steps are single polls of the `select!`s, and the loops themselves |
| `Lifecycle` | the shutdown manager, and the manager, the listener and the other tasks running together |
| `ProxyStream` | the PROXY preamble read from a connection in arbitrary pieces, and the stream that gives back what was read too far |
| `Sprintf` | translated messages with `%` placeholders: their printer and their parser |
| `Translations`, `TreeCodec` | the translation tree: lookup, in-place insertion, and its file format with `@key` metadata |
| `ScanKeys`, `Scanner` | the template scanner and the insertion of the keys it finds |
| `Tokens` | generating and checking tokens |
| `ConfigSync` | reconciling the database with the configuration |
| `Devices` | reconciling the devices of a user with the homeserver, against the mock homeserver |
| `Constraints` | choosing keys by constraints |
| `AcceptLanguage`, `Scope` | two header and parameter codecs |
| `Passwords` | password schemes and their upgrades at login |
| `Ulid` | identifiers packed from a time and random bits |
| `Text`, `Order` | splitting, joining, stable sorting, string order |

What comes from libraries, clocks, the network or a random number generator is a parameter: the CRC-32
checksum, locale parsing and printing, address and port parsing, password hashing and Unicode
normalisation, the replies of the homeserver, the times and the random bits. Where a law of such a
parameter is used it is a named predicate in the contract (`AcceptLanguage.Lawful`, `Passwords.Lawful`). What
a hashing algorithm sees of a password, all of it or not, is a parameter too.

Some properties that one might expect turned out not to hold without exception. The models keep what
the code does. For each of them a lemma says exactly when the property holds, and an example shows it
fail:

- A socket can still be taken after the soft token is cancelled, if the cancellation falls between the
  poll of the token and the poll of the accept stream: `Listener.LateAcceptPossibleIff`,
  `Listener.AtMostOneLateAccept`; example `Listener.LateAcceptExample`.
- A PROXY line whose CRLF begins at byte 107 is rejected for a missing CRLF if a read ends between the CR
  and the LF; otherwise its content decides: `ProxyStream.ChunkingIsIrrelevantIff`; example
  `ProxyStream.LimitExample`.
- Different checksums can print alike: `Tokens.CollisionIff`; example `Tokens.OneCollides`.
- A second pruning synchronisation is not always a no-op when there are more than 1000 providers:
  `ConfigSync.SecondSyncIsNoOpIff`; example `ConfigSync.SecondSyncExample`.
- Pruning deletes the links and sessions of a provider that is disabled in the database even if the
  configuration enables it again: `ConfigSync.DependentLostIff`; example `ConfigSync.ReenabledLosesLinks`.
- A password upgrade locks the original password out if the new scheme tells it from the password given and
  the old one did not, as when normalisation is given up or bcrypt, which looks at 72 bytes only, is left for
  Argon2: `Passwords.UpgradeKeepsOriginalIff`, `Passwords.OriginalVerifiesIff` over whole runs and
  `Passwords.MigrationIsSafeIff` over all logins; examples `Passwords.LossyUpgradeLocksOut`,
  `Passwords.CutUpgradeLocksOut`.
- The device synchronisation is the mock's plain assignment only if no unrequested device is dehydrated:
  `Devices.RefinesMockIff`; example `Devices.MirrorBreaks`.
- A message does not always read back as it was written: `Sprintf.ParseUndoesPrintIff` and, for whole
  trees, `TreeCodec.RoundTripIff`; example `Sprintf.EmptyLiteral`, the message given to new keys.
- A later time gives a larger identifier only from the epoch on and until 48 bits of milliseconds wrap:
  `Ulid.LaterIsLargerIff`; example `Ulid.WrapExample`.

## Model

| member | source | states |
|---|---|---|
| `Listener.AbortableConnection.Poll` | crates/listener/src/server.rs:279-290 | the wrapped connection gets `graceful_shutdown` before the poll if the token is cancelled and it was not asked before |
| `Listener.RunIsSafe` | crates/listener/src/server.rs:331-455 | in every run each accepted socket is in exactly one of handshaking, serving, finished, failed, aborted; hard implies soft implies every connection token; a serving task is spawned once per socket; on return nothing is left in either set |
| `Listener.HardNeedsCancel` | crates/listener/src/server.rs:440-447 | the hard token is seen cancelled exactly in the runs in which somebody cancelled it |
| `Listener.GracefulRunsAbortNothing` | crates/listener/src/server.rs:409-454 | a run without a hard cancellation never aborts a handshake or a connection |
| `Listener.AtMostOneLateAccept` | crates/listener/src/server.rs:336-398 | at most one socket is taken after the soft cancellation, and none after the loop saw it |
| `Listener.LateAcceptPossibleIff` | crates/listener/src/server.rs:336-398 | a socket can be taken after the soft cancellation if and only if the round under way is past its look at the token and no earlier branch is ready |
| `Listener.LateAcceptExample` | crates/listener/src/server.rs:336-398 | a run in which a socket is taken after the soft cancellation |
| `Listener.ConnectionCalls` | crates/listener/src/server.rs:279-290 | over every run a connection sees plain polls, then one graceful shutdown right before the first poll after the cancellation, then plain polls |
| `Listener.LateConnectionsShutDownFirst` | crates/listener/src/server.rs:414-426 | a connection spawned after the cancellation, as in the drain, is asked to shut down before its first poll |
| `Listener.SocketFates` | crates/listener/src/server.rs:331-455 | in every run a socket is served only if its handshake connected it; once it is not served any more it is finished if its connection was closed, failed if it panicked, aborted if it had not ended; a handshake that did not connect has failed once it is joined |
| `Listener.DrainStep` | crates/listener/src/server.rs:409-450 | every join of the drain lowers twice the handshakes plus the connections, although a handshake spawns a connection |
| `Listener.DrainIsBounded` | crates/listener/src/server.rs:409-450 | over any stretch of a drain the joins are bounded by the measure at its start |
| `Listener.NeverStuckIff` | crates/listener/src/server.rs:331-455 | in every state the listener has a step of its own to take, exactly until it has returned |
| `Listener.HardShutdownIsBounded` | crates/listener/src/server.rs:409-455 | once the hard token is cancelled the listener takes at most three steps of its own per join still possible and 16 more, whatever the rest of the program does, and has returned after that many |
| `Listener.JoinAcceptTask` | crates/listener/src/server.rs:346-362 | whichever finished handshake is joined, the sets change as the machine's do and the counts as `Count` says |
| `Listener.JoinConnectionTask` | crates/listener/src/server.rs:365-371 | the same for a finished connection |
| `Listener.AcceptConnection` | crates/listener/src/server.rs:374-397 | a new socket is numbered next and handshaking |
| `Listener.DrainLoop` | crates/listener/src/server.rs:409-450 | the drain loop ends with both sets empty, or early at the hard token |
| `Listener.RunServers` | crates/listener/src/server.rs:331-455 | for every sequence of `select!` results the loops execute a run of the machine, with the counts of `Count`, and return exactly when `Count` is done; then every accepted socket is settled once, and none is aborted unless the hard token was seen |
| `Listener.CountIsExpected` | crates/listener/src/server.rs:331-450 | without a hard cancellation the counts are numbers of rounds: incoming sockets, handshakes that connected and have not ended, closed connections, and as failed all other handshakes and connections; nothing is aborted, and the server is done exactly when the soft token was seen and nothing is left |
| `Listener.HardCountIsExpected` | crates/listener/src/server.rs:440-454 | a hard cancellation during the drain aborts exactly what is left |
| `Listener.OutcomeIsSafe` | crates/listener/src/server.rs:331-455 | a returned server has settled every socket it took and aborted none unless the hard token was cancelled |
| `Lifecycle.ListenerRuns` | crates/cli/src/lifecycle.rs:82-83 | the listener inside the system only ever makes runs of the listener alone, the manager reaching it through the two tokens |
| `Lifecycle.ManagerRuns` | crates/cli/src/lifecycle.rs:132-231 | the manager inside the system takes only steps it takes on its own |
| `Lifecycle.NotificationGrammar` | crates/cli/src/lifecycle.rs:133-196 | in every run the notifications are Ready (Watchdog or Reloading Ready)* Stopping, up to where the manager stands |
| `Lifecycle.EachHupReloadsOnce` | crates/cli/src/lifecycle.rs:171-192 | each SIGHUP runs every registered handler exactly once |
| `Lifecycle.RunHasHistory` | crates/cli/src/lifecycle.rs:140-231 | the hard token is cancelled exactly after the second wait, the tracker is closed before it, and the manager remembers what ended the first wait |
| `Lifecycle.TokenHierarchy` | crates/cli/src/lifecycle.rs:82-83 | every reachable state keeps hard cancelled, hence soft cancelled, hence all connection tokens cancelled |
| `Lifecycle.ExitMeansSettled` | crates/cli/src/lifecycle.rs:218-231 | `run` returns only with the tracker closed and empty and every socket settled, and with FAILURE exactly when the soft token ended the first wait |
| `Lifecycle.FailureNeedsDroppedGuard` | crates/cli/src/lifecycle.rs:149-153 | the soft token is cancelled exactly if the manager cancelled it or a task dropped its guard, and the first wait ends through it only after such a drop |
| `Lifecycle.AbortsNeedHard` | crates/cli/src/lifecycle.rs:203-218 | a socket is aborted only after the second wait ended |
| `Lifecycle.GracefulShutdownAbortsNothing` | crates/cli/src/lifecycle.rs:203-221 | if the tracker ran empty in the second wait, no socket was or will be aborted |
| `Lifecycle.LifecycleManager.constructor` | crates/cli/src/lifecycle.rs:81-102 | a new manager has live tokens, an open tracker and no handlers |
| `Lifecycle.LifecycleManager.RegisterReloadable` | crates/cli/src/lifecycle.rs:105-111 | one more handler is registered |
| `Lifecycle.LifecycleManager.Reload` | crates/cli/src/lifecycle.rs:171-192 | Reloading and then Ready is announced, and every registered handler has run once more, no other |
| `Lifecycle.LifecycleManager.WaitForFirst` | crates/cli/src/lifecycle.rs:140-194 | of the events before the first one that ends the wait, each tick of an enabled watchdog and each SIGHUP is announced in order, and each handler runs once per SIGHUP; the steps are legal manager steps |
| `Lifecycle.LifecycleManager.Shutdown` | crates/cli/src/lifecycle.rs:198-231 | soft token, tracker, second wait, hard token, last wait, in this order, and the exit code |
| `Lifecycle.LifecycleManager.Run` | crates/cli/src/lifecycle.rs:132-231 | from the events alone: the notifications are Ready, one Watchdog per tick if enabled, Reloading Ready per SIGHUP, then Stopping if the wait ended; each handler ran once per SIGHUP before that; then both tokens are cancelled and the tracker closed; the exit code is FAILURE exactly if the soft token ended the wait; every step is legal |
| `ProxyStream.FindIsFirst` | crates/listener/src/proxy_protocol/v1.rs:67-81 | the search finds the first CRLF among the first 108 pairs of bytes, if there is one |
| `ProxyStream.PreambleIff` | crates/listener/src/proxy_protocol/v1.rs:83-90 | which lines have no preamble, no protocol, an unknown protocol or the protocol UNKNOWN, by their fields between spaces |
| `ProxyStream.AddressLineIff` | crates/listener/src/proxy_protocol/v1.rs:91-170 | of a line with an address protocol: each missing field is reported exactly if the fields before it can be read and it is the first one missing; an address pair is read exactly if all six can, as source and destination address, then source and destination port |
| `ProxyStream.FieldErrorIff` | crates/listener/src/proxy_protocol/v1.rs:91-170 | a field that cannot be read is reported exactly if it is the first such one |
| `ProxyStream.WaitsIff` | crates/listener/src/proxy_protocol/v1.rs:60-81 | the parser waits exactly below 15 bytes or, without a CRLF, below 108, and gives up without a CRLF exactly from 108 on |
| `ProxyStream.LineDecides` | crates/listener/src/proxy_protocol/v1.rs:83-186 | otherwise the line before the first CRLF decides, and a header ends right behind the CRLF |
| `ProxyStream.HeaderHasPreamble` | crates/listener/src/proxy_protocol/v1.rs:86-90 | whatever is accepted begins with the word PROXY and a space |
| `ProxyStream.ShortestHeader` | crates/listener/src/proxy_protocol/v1.rs:60-65 | fifteen bytes are enough for a header, and fewer never are |
| `ProxyStream.NeverTooManyFields` | crates/listener/src/proxy_protocol/v1.rs:86-108 | too many fields are never reported as such, since the line is split into at most six |
| `ProxyStream.DecisionStands` | crates/listener/src/proxy_protocol/v1.rs:55-186 | what the parser decides on a part of a stream it decides on the whole, except after 108 bytes with the CRLF at byte 107 |
| `ProxyStream.TheLimit` | crates/listener/src/proxy_protocol/v1.rs:67-81 | with the first CRLF at byte 107 the parser waits up to 107 bytes, fails at 108 and succeeds or fails otherwise on the whole |
| `ProxyStream.ChunkingIsIrrelevantIff` | crates/listener/src/proxy_protocol/acceptor.rs:45-58 | outcome, information and bytes left over are those of the whole stream however it is cut, if and only if not cut after 108 bytes at that limit |
| `ProxyStream.LimitExample` | crates/listener/src/proxy_protocol/v1.rs:67-81 | a stream that is accepted in one piece and rejected in two |
| `ProxyStream.AcceptedAgrees` | crates/listener/src/proxy_protocol/acceptor.rs:45-58 | what is accepted is what the whole stream says, however it is cut |
| `ProxyStream.Accept` | crates/listener/src/proxy_protocol/acceptor.rs:38-59 | the loop reads until the parser decides and hands the rest of the buffer to the rewinding stream |
| `ProxyStream.Rewind.PollRead` | crates/listener/src/rewind.rs:46-68 | the data read and the bytes still to come are together the bytes that were to come; the buffered part comes first |
| `ProxyStream.Rewind.ReadAll` | crates/listener/src/rewind.rs:46-68 | the same over any sequence of reads with buffers of any size |
| `ProxyStream.AcceptThenRead` | crates/listener/src/proxy_protocol/acceptor.rs:38-59 | after an accepted preamble the application reads the bytes that follow it, in order, none lost and none twice |
| `Sprintf.Display` | crates/i18n/src/sprintf/message.rs:211-218 | the loop writes the parts one after the other |
| `Sprintf.PrintUndoesParse` | crates/i18n/src/sprintf/parser.rs:258-274 | whatever text parses, printing the message gives the same text back |
| `Sprintf.ParsedIsNormal` | crates/i18n/src/sprintf/grammar.pest:7-75 | a parsed message has no empty text, no `%` in a text, no two texts in a row, no zero width, precision or index, and only identifiers as names |
| `Sprintf.NormalParsesBack` | crates/i18n/src/sprintf/parser.rs:187-274 | every such message parses back from its print, although the grammar takes its choices in order and its repetitions greedily |
| `Sprintf.ParseUndoesPrintIff` | crates/i18n/src/sprintf/parser.rs:258-274 | parsing undoes printing exactly for those messages |
| `Sprintf.PlaceholderPrinted` | crates/i18n/src/sprintf/parser.rs:187-256 | a printed placeholder with a proper argument is read back, whatever follows, exactly if its numbers fit, its precision is not zero and a zero width has nothing in front of it; such a width is read as padding |
| `Sprintf.ReadsAsNormalForm` | crates/i18n/src/sprintf/parser.rs:258-274 | a message without `%` in its texts and with identifiers for names is read back with its texts joined and zero widths as padding exactly if no placeholder has a zero index, a zero precision, a number too large or a zero width after padding or alignment; otherwise it does not parse |
| `Sprintf.TypeLetters` | crates/i18n/src/sprintf/parser.rs:153-185 | which letter after a `%` is read as which type |
| `Sprintf.WidthLimit` | crates/i18n/src/sprintf/parser.rs:73-83 | a width is read exactly if it fits 64 bits |
| `Sprintf.ParseExample` | crates/i18n/src/sprintf/grammar.pest:15-75 | a text with every element of a placeholder, and what it is read as |
| `Sprintf.EmptyLiteral` | crates/i18n/src/sprintf/message.rs:233-240 | the message made from an empty literal has one part, but reads back with none |
| `Translations.PluralizeIsLookup` | crates/i18n/src/translations.rs:180-198 | pluralization is the lookup of the key, of its category or of "other", and when each is used |
| `Translations.SetPanicsIff` | crates/i18n/src/translations.rs:201-263 | `set_if_not_defined` panics exactly if the path is empty, runs through a message or names a non-empty subtree |
| `Translations.WalkAfterSet` | crates/i18n/src/translations.rs:201-263 | every node after a set, by where it lies relative to the path |
| `Translations.SetFrame` | crates/i18n/src/translations.rs:201-263 | a set defines the message if it was missing and leaves every other lookup as it was; it returns whether it was missing; the node of the path gets the location beside those it had, and every node keeps its description |
| `Translations.ConflictsAfterSet` | crates/i18n/src/translations.rs:201-263 | the conflicts after a set are the old ones and the proper prefixes and extensions of the path |
| `Translations.LeavesAreMessages` | crates/i18n/src/translations.rs:265-300 | the leaves of a tree are the paths that have a message |
| `Translations.LeavesAfterSet` | crates/i18n/src/translations.rs:201-263 | a set adds its path to the leaves, and one to their number exactly if it returns true |
| `Translations.TranslationTree.Set` | crates/i18n/src/translations.rs:201-263 | the loop that walks down and creates nodes in place does what the recursive definition says, and panics when it does |
| `ScanKeys.AddAllPanicsIff` | crates/i18n-scan/src/key.rs:37-77 | inserting the keys panics exactly if some key conflicts with the tree or one key's path is a proper prefix of another's, in whatever order they come |
| `ScanKeys.AddAllProgress` | crates/i18n-scan/src/key.rs:37-77 | what the insertions so far did to conflicts, messages and the number of messages |
| `ScanKeys.AddMissingResult` | crates/i18n-scan/src/key.rs:37-77 | existing messages stay, missing keys become empty messages, nothing else appears, and the count is the number of distinct new paths and the growth in leaves |
| `ScanKeys.AddMissingTwice` | crates/i18n-scan/src/key.rs:37-77 | running it again adds nothing and returns 0 |
| `ScanKeys.LocationsAfter` | crates/i18n-scan/src/key.rs:37-77 | every node gets the rendered locations of the keys that belong there beside those it had, and keeps its description |
| `ScanKeys.RenderIff` | crates/i18n-scan/src/key.rs:42-61 | in one file two locations are rendered alike only if they are the same |
| `ScanKeys.RenderExample` | crates/i18n-scan/src/key.rs:42-61 | how a location on one line and one on several are rendered |
| `ScanKeys.AddedKeysAreFound` | crates/i18n-scan/src/key.rs:37-77 | afterwards every recorded message key is found by name, and every recorded plural key by `pluralize` for any category, unless a subtree stands in the place of the category |
| `ScanKeys.Context.constructor` | crates/i18n-scan/src/key.rs:17-23 | a new context has no keys and no file |
| `ScanKeys.Context.Record` | crates/i18n-scan/src/key.rs:29-31 | the key is appended |
| `ScanKeys.Context.AddMissing` | crates/i18n-scan/src/key.rs:37-77 | the loop over the keys panics exactly on incompatible keys and otherwise leaves the tree and the count of the specification |
| `Scanner.ChildrenAddUp` | crates/i18n-scan/src/minijinja.rs:16-258 | the visited parts of every syntax node are all of its parts, each once: their sizes add up to its own |
| `Scanner.CallsAreAllCalls` | crates/i18n-scan/src/minijinja.rs:16-258 | the calls collected by the walk are one for each position of the tree that holds a call, and no position twice |
| `Scanner.ScanIsExact` | crates/i18n-scan/src/minijinja.rs:109-150 | a scan succeeds if and only if every call of the translation function at any depth has a string constant as first positional argument, and then records for each such call once: that text, as a plural exactly if some keyword argument is called `count`, and its span in the current file if there is one |
| `Scanner.FindInStmt` | crates/i18n-scan/src/minijinja.rs:16-92 | visiting a statement records what scanning it means, and fails for good at the first bad call |
| `Scanner.FindInStmts` | crates/i18n-scan/src/minijinja.rs:175-181 | the same for a list of statements |
| `Scanner.FindInExpr` | crates/i18n-scan/src/minijinja.rs:183-239 | the same for an expression |
| `Scanner.FindInExprs` | crates/i18n-scan/src/minijinja.rs:241-247 | the same for a list of expressions |
| `Scanner.FindInOptionalExpr` | crates/i18n-scan/src/minijinja.rs:249-258 | the same for an optional expression |
| `Scanner.FindInCall` | crates/i18n-scan/src/minijinja.rs:109-150 | a translation call is recorded before its parts, a bad one ends the scan |
| `Scanner.FindInCallArgs` | crates/i18n-scan/src/minijinja.rs:152-161 | the same for a list of arguments |
| `Scanner.FindInCallArg` | crates/i18n-scan/src/minijinja.rs:163-173 | the same for an argument of any kind |
| `Scanner.FindInMacro` | crates/i18n-scan/src/minijinja.rs:101-107 | body, arguments and defaults of a macro are visited |
| `Scanner.ScanTemplate` | crates/i18n-scan/src/minijinja.rs:16-92 | the scan of a whole template succeeds and records exactly as `ScanIsExact` says |
| `TreeCodec.MetadataRoundTrip` | crates/i18n/src/translations.rs:34-67 | written metadata reads back with only the locations cleared |
| `TreeCodec.MetadataWritten` | crates/i18n/src/translations.rs:43-67 | metadata is written as its locations in ascending order joined by commas, unless that is empty, then its description if it has one |
| `TreeCodec.MetadataRead` | crates/i18n/src/translations.rs:34-41 | of metadata only the description is read, which may be missing or null but not repeated; an array is read if it holds the description alone, anything else is an error |
| `TreeCodec.ValueRoundTrip` | crates/i18n/src/translations.rs:93-160 | a written value whose keys have no `@` and whose messages print as texts that parse reads back with each message as it prints and the locations cleared, at any depth |
| `TreeCodec.ParsedIsWritable` | crates/i18n/src/translations.rs:93-142 | whatever is read has no `@` key and only messages that read back as themselves |
| `TreeCodec.WritableRereads` | crates/i18n/src/translations.rs:93-160 | trees without `@` keys whose messages parse back as themselves lose nothing but locations |
| `TreeCodec.RereadIsWritableIff` | crates/i18n/src/translations.rs:93-160 | what is read back from a tree can be written and read again unchanged exactly if the tree could be read back |
| `TreeCodec.ReadsBackIff` | crates/i18n/src/translations.rs:93-160 | a written tree reads back, with messages as they print, exactly if it has no `@` key and its messages print as texts that parse |
| `TreeCodec.LegibleIff` | crates/i18n/src/translations.rs:93-160 | of the trees with such messages, those read back are exactly the ones without `@` keys whose placeholders are so |
| `TreeCodec.RoundTripIff` | crates/i18n/src/translations.rs:93-160 | reading undoes writing up to locations exactly for trees without `@` keys whose messages read back as themselves |
| `TreeCodec.ObjectRead` | crates/i18n/src/translations.rs:107-138 | an object is read exactly if each of its entries is, `@` entries as metadata; its nodes are its keys without `@`, each with the value of the last entry of that key and the metadata of the last `@` entry for it, if there is one |
| `TreeCodec.EntriesPlaced` | crates/i18n/src/translations.rs:144-161 | each key is written behind all keys before it, and its metadata right behind it |
| `TreeCodec.EntryOrderIrrelevant` | crates/i18n/src/translations.rs:107-138 | reading does not depend on the order of entries, at any depth |
| `TreeCodec.OrphansDropped` | crates/i18n/src/translations.rs:130-135 | metadata entries without a partner make no difference, at any depth |
| `TreeCodec.Deserialize` | crates/i18n/src/translations.rs:107-138 | the visitor's loop computes the specification |
| `TreeCodec.AttachAll` | crates/i18n/src/translations.rs:130-135 | attaching metadata in any order of the map gives the specified tree |
| `Tokens.SixCharacters` | crates/data-model/src/tokens.rs:370-380 | every 32-bit number prints as exactly six alphanumeric characters |
| `Tokens.CollisionIff` | crates/data-model/src/tokens.rs:370-380 | two numbers print alike exactly if they differ by factors of 62 |
| `Tokens.OneCollides` | crates/data-model/src/tokens.rs:370-380 | 1 and 62^5 both print as 000001 |
| `Tokens.Char62Ascends` | crates/data-model/src/tokens.rs:370 | the alphabet is the alphanumeric characters in ascending order |
| `Tokens.DigitsAreNumber` | crates/data-model/src/tokens.rs:372-380 | the digits stand for the number, the first one counting least |
| `Tokens.Base62Encode` | crates/data-model/src/tokens.rs:370-380 | the loop prints the digits, least significant first, padded to six |
| `Tokens.MacaroonIff` | crates/data-model/src/tokens.rs:363-368 | what is taken for a macaroon is exactly the base64url text of bytes with "location " at offset 4 |
| `Tokens.Encode64Example` | crates/data-model/src/tokens.rs:363-368 | texts of base64url from all parts of its alphabet |
| `Tokens.StrayCharacter` | crates/data-model/src/tokens.rs:363-368 | a text whose length is 1 modulo 4 is not base64url, hence no macaroon |
| `Tokens.GeneratedIsAccepted` | crates/data-model/src/tokens.rs:283-336 | for every type and random part, the generated token is accepted as that type |
| `Tokens.GeneratedText` | crates/data-model/src/tokens.rs:260-294 | how a token of each type begins, and that it ends in the checksum of everything before its last underscore |
| `Tokens.AcceptedIff` | crates/data-model/src/tokens.rs:301-336 | accepted as a type are exactly the legacy tokens of it and, for each random part, the one generated token |
| `Tokens.RejectedIff` | crates/data-model/src/tokens.rs:301-336 | which error is reported, for every token that is not legacy |
| `Tokens.ErrorsReport` | crates/data-model/src/tokens.rs:301-336 | an unknown prefix is reported as found; a wrong checksum with the one expected and the one found |
| `Tokens.CanonicalPrefix` | crates/data-model/src/tokens.rs:271-280 | off the legacy path a matched prefix is the canonical one of its type |
| `Tokens.GenerateIsInjective` | crates/data-model/src/tokens.rs:283-294 | a token determines its type and random part |
| `ConfigSync.ListPage` | crates/cli/src/sync.rs:126-140 | the page shows the 1000 smallest ids, ascending |
| `ConfigSync.DisableExisting` | crates/cli/src/sync.rs:142-167 | enabled providers on the page that the configuration does not enable are disabled; which are remembered as disabled |
| `ConfigSync.DeleteProviders` | crates/storage-pg/src/upstream_oauth2/provider.rs:469-524 | the given providers, their links and their authorization sessions are gone, nothing else is |
| `ConfigSync.WriteProviders` | crates/cli/src/sync.rs:194-373 | fails exactly on an enabled provider with an unreadable secret or an invalid scope; otherwise each configured row is written from the last entry of its id, keeping its creation time |
| `ConfigSync.DeleteClients` | crates/cli/src/sync.rs:387-396 | exactly the given clients are gone |
| `ConfigSync.WriteClients` | crates/cli/src/sync.rs:410-447 | fails exactly on an unreadable secret or on both kinds of key set; otherwise each configured client is static and as configured |
| `ConfigSync.SyncProviders` | crates/cli/src/sync.rs:119-374 | the providers end pointwise as `Final` says, the links and sessions as `DependentsReconciled` says; a dry run changes nothing |
| `ConfigSync.SyncClients` | crates/cli/src/sync.rs:376-448 | it fails exactly on an unreadable secret or on a client with both kinds of key set, unless it is a dry run; the clients end pointwise as `FinalClient` says; a dry run changes nothing |
| `ConfigSync.Database.ConfigSync` | crates/cli/src/sync.rs:91-459 | a real run ends in the reconciled tables; a dry run or an error leaves the database as it was |
| `ConfigSync.EnabledAfter` | crates/cli/src/sync.rs:119-374 | the enabled ids are those of the configuration and the enabled ones past the first page; they are the configuration's if and only if the latter are among them, so always up to 1000 providers |
| `ConfigSync.RowsAfter` | crates/cli/src/sync.rs:169-192 | with pruning the ids left are the configuration's and those past the page; without, no row disappears |
| `ConfigSync.SecondSyncIsNoOpIff` | crates/cli/src/sync.rs:119-374 | a second synchronisation changes nothing unless it prunes and rows outside the configuration have moved onto the page, and exactly then it does; never up to 1000 providers |
| `ConfigSync.SecondSyncKeepsDependentsIff` | crates/cli/src/sync.rs:119-192 | a second synchronisation keeps all links and sessions exactly if it does not prune or none belongs to an unconfigured provider that has moved onto the page; always up to 1000 providers |
| `ConfigSync.SecondSyncExample` | crates/cli/src/sync.rs:119-192 | 1001 providers and an empty configuration: the first pruning leaves one provider, the second none |
| `ConfigSync.UiOrderFollowsConfig` | crates/cli/src/sync.rs:194-200 | of two configured providers, the one whose last entry comes earlier is ordered before the other exactly if that position is below the largest column value |
| `ConfigSync.ConfiguredRow` | crates/cli/src/sync.rs:194-373 | what is stored of a configured provider, field by field: the settings, the flag, the words of the scope and the parameters of its last entry, with the login hint added where it is due; its position; and its old creation time unless it was pruned first |
| `ConfigSync.UnconfiguredRow` | crates/cli/src/sync.rs:142-192 | a provider that is not configured is gone exactly if it is on the page and pruning is on; otherwise only `enabled` changes, and only on the page |
| `ConfigSync.ValidIff` | crates/cli/src/sync.rs:194-315 | a configuration can be written exactly if of every enabled provider the secret is readable and the scope is in the grammar |
| `ConfigSync.LoginHintAfter` | crates/cli/src/sync.rs:340-364 | after a synchronisation every configured provider has a login hint exactly if its last entry gives one or forwards it; the given parameters are kept in front and at most the hint is added |
| `ConfigSync.DependentLostIff` | crates/cli/src/sync.rs:142-181 | pruning deletes a link or session exactly if its provider is on the page and disabled in the database or not enabled by the configuration; the provider outlives it exactly if it is disabled in the database and enabled by the configuration |
| `ConfigSync.ReenabledLosesLinks` | crates/cli/src/sync.rs:142-181 | a provider that ends enabled, newly created, and without its link |
| `ConfigSync.ClientsAfter` | crates/cli/src/sync.rs:376-448 | with pruning the static clients are the configuration's, without none disappears, dynamic ones are left alone |
| `ConfigSync.ClientRows` | crates/cli/src/sync.rs:376-448 | a configured client is stored as its last entry says, key set and key set location each in its place; another one is gone exactly if it is static and pruning is on, and else unchanged |
| `ConfigSync.ClientSyncIsIdempotent` | crates/cli/src/sync.rs:376-448 | a second synchronisation of clients changes nothing |
| `Devices.Synapse.UpsertDevice` | crates/matrix-synapse/src/legacy.rs:326-364 | a device is created if it is not there, whether or not the answer arrives |
| `Devices.Synapse.SyncDevices` | crates/matrix-synapse/src/legacy.rs:459-525 | on success the devices are the requested and the dehydrated ones; wherever a request fails they are between before and after; other users are untouched |
| `Devices.Synapse.CreateMissing` | crates/matrix-synapse/src/legacy.rs:519-523 | the creations, in any order, finish the synchronisation or stop in between |
| `Devices.ResumeReachesSameEnd` | crates/matrix-synapse/src/legacy.rs:459-525 | from anywhere in between, a run ends where it would have ended from the start |
| `Devices.RetriesStayBetween` | crates/matrix-synapse/src/legacy.rs:459-525 | any number of interrupted runs in a row stays between the first start and the end |
| `Devices.RetriesReachSameEnd` | crates/matrix-synapse/src/legacy.rs:459-525 | so after any number of interrupted runs |
| `Devices.SyncIsIdempotent` | crates/matrix-synapse/src/legacy.rs:459-525 | synchronising twice is synchronising once |
| `Devices.RefinesMockIff` | crates/matrix/src/mock.rs:171-181 | the outcome is the mock's assignment exactly if no unrequested device is dehydrated |
| `Devices.Mock.UpsertDevice` | crates/matrix/src/mock.rs:137-148 | the mock inserts the id of a known user |
| `Devices.Mock.DeleteDevice` | crates/matrix/src/mock.rs:163-169 | the mock removes the id of a known user |
| `Devices.Mock.SyncDevices` | crates/matrix/src/mock.rs:171-181 | the mock assigns the requested ids |
| `Devices.SyncBoth` | crates/matrix/src/mock.rs:171-181 | synchronising both keeps the mock a mirror exactly if no unrequested device is dehydrated |
| `Devices.MirrorBreaks` | crates/matrix/src/mock.rs:171-181 | a successful synchronisation after which the mock is no longer a mirror |
| `Constraints.DecisionMeans` | crates/jose/src/constraints.rs:94-161 | what each kind of constraint rejects, favours and leaves open |
| `Constraints.SelectionIsExact` | crates/jose/src/constraints.rs:181-208 | the selection has each key without a negative decision as often as offered, by ascending number of positive decisions, ties in the order offered |
| `Constraints.UnionIntersects` | crates/jose/src/constraints.rs:181-208 | the survivors of a union are the common survivors, in order |
| `Constraints.MoreConstraintsFewerKeys` | crates/jose/src/constraints.rs:210-238 | adding constraints only takes keys away |
| `Constraints.ConstraintSet.Add` | crates/jose/src/constraints.rs:210-238 | the constraint is inserted into the set |
| `Constraints.ConstraintSet.FromHeader` | crates/jose/src/constraints.rs:241-251 | the constraints of a JWS header are its algorithm and its key id if it has one |
| `Constraints.ConstraintSet.ScoreOf` | crates/jose/src/constraints.rs:188-199 | the inner loop gives the number of positive decisions or rejects, whatever the order of the hash set |
| `Constraints.ConstraintSet.Filter` | crates/jose/src/constraints.rs:181-208 | the result is a function of the set of constraints and the keys: the stable selection |
| `Constraints.HeaderSelects` | crates/jose/src/constraints.rs:241-251 | a key can serve a header exactly if it allows the algorithm and does not have another id |
| `Constraints.NamedKeyComesLater` | crates/jose/src/constraints.rs:201-208 | of equally specific keys, one with the header's id comes after one without id |
| `AcceptLanguage.TrimBytes` | crates/axum-utils/src/language_detection.rs:52-71 | the result is the middle between two runs of white space and has none at its ends |
| `AcceptLanguage.TrimIsUnique` | crates/axum-utils/src/language_detection.rs:52-71 | there is only one such middle |
| `AcceptLanguage.SpaceIff` | crates/axum-utils/src/language_detection.rs:52-71 | which five characters are white space |
| `AcceptLanguage.ThousandthsIsNearest` | crates/axum-utils/src/language_detection.rs:103-118 | a quality is rounded to the nearest number of thousandths, after it was brought between 0 and 1 |
| `AcceptLanguage.QualityRoundTrip` | crates/axum-utils/src/language_detection.rs:145-148 | every quality up to 1 survives printing and parsing |
| `AcceptLanguage.NumberIff` | crates/axum-utils/src/language_detection.rs:103-112 | exactly the decimal numbers are read: a sign or none, digits, perhaps a dot and digits, at least one digit; each as its value |
| `AcceptLanguage.PartRoundTrip` | crates/axum-utils/src/language_detection.rs:84-122 | a printed part parses back, with or without the space in front |
| `AcceptLanguage.PartIff` | crates/axum-utils/src/language_detection.rs:84-122 | exactly the parts are read that are a locale or `*` and perhaps a semicolon and `q=` with a number, each between white space; without a quality it is 1 |
| `AcceptLanguage.PartsIff` | crates/axum-utils/src/language_detection.rs:83-124 | a header is read exactly if each of its pieces is, one part per piece |
| `AcceptLanguage.HeaderExample` | crates/axum-utils/src/language_detection.rs:164-202 | a header of three parts and what it is read as, best first |
| `AcceptLanguage.DecodeSorts` | crates/axum-utils/src/language_detection.rs:30-36 | the decoded parts are stably sorted by descending quality, ties in header order across lines |
| `AcceptLanguage.LinesCombine` | crates/axum-utils/src/language_detection.rs:83-124 | several header lines mean what one line with all of them joined by commas means |
| `AcceptLanguage.RoundTripIff` | crates/axum-utils/src/language_detection.rs:78-153 | decoding undoes encoding exactly for non-empty values with qualities up to 1 in descending order |
| `AcceptLanguage.EmptyIsInvalid` | crates/axum-utils/src/language_detection.rs:84-98 | an empty header line is an error |
| `AcceptLanguage.IterStopsAtStar` | crates/axum-utils/src/language_detection.rs:45-48 | `iter` yields exactly the locales before the first `*` |
| `AcceptLanguage.DecodeOne` | crates/axum-utils/src/language_detection.rs:85-122 | one part is decoded as specified |
| `AcceptLanguage.DecodeHeader` | crates/axum-utils/src/language_detection.rs:78-127 | the nested loops over lines and parts compute the specification, errors included |
| `AcceptLanguage.EncodeHeader` | crates/axum-utils/src/language_detection.rs:129-153 | the loop joins the printed parts with a comma and a space |
| `Scope.AcceptsGrammar` | crates/oauth2-types/src/scope.rs:87-152 | a text parses exactly if it is in the grammar of section 3.3 and appendix A.4 of RFC 6749, into the tokens of its only reading |
| `Scope.TokenIff` | crates/oauth2-types/src/scope.rs:87-110 | which characters a token may have |
| `Scope.RoundTripIff` | crates/oauth2-types/src/scope.rs:139-194 | parsing undoes printing exactly for non-empty scopes of valid tokens |
| `Scope.PrintsAlikeIff` | crates/oauth2-types/src/scope.rs:182-194 | two accepted texts print alike exactly if they have the same words, in any order and number |
| `Order.SortedAscends` | crates/oauth2-types/src/scope.rs:182-194 | the order in which the tokens of a scope are written is strictly ascending, character by character |
| `Order.BelowIff` | crates/oauth2-types/src/scope.rs:182-194 | a string is before another if it is a proper prefix of it or smaller where they first differ |
| `Scope.ContainsWords` | crates/oauth2-types/src/scope.rs:170-172 | `contains` finds exactly the words of a parsed text |
| `Scope.Display` | crates/oauth2-types/src/scope.rs:182-194 | the loop writes the tokens in ascending order with single spaces between them |
| `Passwords.New` | crates/handlers/src/passwords.rs:98-120 | the first hasher is current, of the others the last of each version is kept, an empty list is an error |
| `Passwords.HashThenVerify` | crates/handlers/src/passwords.rs:304-334 | a hash verifies with exactly the passwords of which its algorithm sees the same after normalisation and with the pepper, and a refused password is an error |
| `Passwords.PepperCounts` | crates/handlers/src/passwords.rs:344-440 | a hash made with one pepper verifies under another exactly if password and pepper, one behind the other, are the same text; for Argon2 exactly if the passwords and the peppers are the same |
| `Passwords.DefaultCost` | crates/handlers/src/passwords.rs:352-361 | without a cost bcrypt hashes with cost 12 |
| `Passwords.VerifiesIff` | crates/handlers/src/passwords.rs:197-221 | while the store holds a password, exactly the passwords verify that the hasher of the stored version cannot tell from it |
| `Passwords.FailureKeepsStore` | crates/handlers/src/passwords.rs:233-256 | at any point of a run, an attempt that fails or errs leaves the store of the run as it was |
| `Passwords.StoresLastUpgrade` | crates/handlers/src/views/login.rs:275-297 | after any run the store has what was there before it or the upgrade of the last upgrading attempt, with the version that was current then |
| `Passwords.ErrorIff` | crates/handlers/src/passwords.rs:197-256 | when an attempt is an error and which: disabled, unknown version, failed verification, and a failed new hash even for a wrong password |
| `Passwords.SuccessIsCurrent` | crates/handlers/src/passwords.rs:233-256 | after a success the stored version is current and the next success returns no upgrade |
| `Passwords.UpgradesIff` | crates/handlers/src/passwords.rs:233-256 | an attempt upgrades exactly if there is another current version, the stored one can be read, its hasher cannot tell the passwords apart and the new one can be hashed |
| `Passwords.RunMirrors` | crates/handlers/src/views/login.rs:275-297 | over any run of attempts and managers that agree on the hashers, the stored hash is of the password that a store of plain passwords would remember |
| `Passwords.RunVerifiesIff` | crates/handlers/src/passwords.rs:197-256 | after any run exactly the passwords verify that the hasher of the stored version cannot tell from the one remembered |
| `Passwords.OriginalVerifiesIff` | crates/handlers/src/passwords.rs:197-256 | after any run the original verifies if and only if that hasher cannot tell it from the one remembered |
| `Passwords.UpgradeKeepsOriginalIff` | crates/handlers/src/passwords.rs:233-256 | an upgrade keeps the original valid if and only if the new hasher sees the same of it and of the password given |
| `Passwords.RunKeepsOriginal` | crates/handlers/src/views/login.rs:275-297 | over any run in which every upgrade does so, the store keeps holding the original |
| `Passwords.CoarserIsCareful` | crates/handlers/src/passwords.rs:233-312 | every run does so where no hasher tells apart what another takes for the same |
| `Passwords.MigrationIsSafeIff` | crates/handlers/src/passwords.rs:233-256 | a migration from one hasher to another keeps every original valid, whatever anybody types, if and only if the new one takes for the same what the old one takes for the same |
| `Passwords.SharpCoarserIff` | crates/handlers/src/passwords.rs:285-334 | between algorithms that see everything, this is so exactly if normalisation is not given up, or normalises no two passwords alike |
| `Passwords.UniformIsCareful` | crates/handlers/src/passwords.rs:304-312 | no run loses the original where all algorithms see everything and all hashers normalise, or none does |
| `Passwords.OriginalVerifies` | crates/handlers/src/passwords.rs:197-256 | so the original verifies at the end with every manager that has the stored version |
| `Passwords.LossyUpgradeLocksOut` | crates/handlers/src/passwords.rs:233-312 | giving up normalisation, a login with another spelling locks the original out |
| `Passwords.CutUpgradeLocksOut` | crates/handlers/src/passwords.rs:317-334 | leaving bcrypt, a login with another password that begins with the same 72 bytes locks the original out, with any pepper and normalisation |
| `Passwords.CutExample` | crates/handlers/src/passwords.rs:317-334 | the same for two concrete passwords and a library that meets the laws |
| `Ulid.OrIsSum` | crates/data-model/src/utils.rs:39-41 | joining disjoint bits is adding |
| `Ulid.MaskIsModulo` | crates/data-model/src/utils.rs:37 | masking with k ones is the remainder modulo 2^k |
| `Ulid.SameIdentifierIff` | crates/data-model/src/utils.rs:35-42 | identifiers are equal exactly if the times held in their 48 bits and the random bits are, for all times; from the epoch up to 2^48 milliseconds the time held is the time given |
| `Ulid.LaterIsLargerIff` | crates/data-model/src/utils.rs:35-42 | all identifiers of one time are below all of another exactly if the time held is earlier |
| `Ulid.WrapExample` | crates/data-model/src/utils.rs:35-42 | a time 2^48 milliseconds after the epoch gives identifiers below those of the millisecond before it |
| `Ulid.DatetimeRoundTripIff` | crates/data-model/src/utils.rs:35-48 | the creation time is recovered exactly if it is from the epoch up to 2^48 milliseconds; before the epoch it becomes the epoch |

## Left out

- HTTP handlers, routing, templates, GraphQL, email, the job queue and the front end: plumbing around the cores modelled here.
- The state enums of access and refresh tokens, `Scope::insert`, `is_password_complex_enough`: they would only add easy members.
- CRC-32, password hashing and the encryption of client secrets: parameters, or not visible in the rows.
- AcceptLanguage.ThousandthsIsNearest: exact decimal arithmetic stands for binary floating point; exponents, infinities, NaN and rounding in binary are not modelled.
- Passwords.HashThenVerify: hashing is taken to be without collisions between inputs of which the algorithm sees different things; passwords are texts, not their bytes.
- Listener.RunServers: a panic of the listener itself appears only as the `DropGuard` step of `Lifecycle`, through the drop guard on the soft token; the wake-ups of tasks are left to the scheduler.
- Lifecycle.FailureNeedsDroppedGuard: why a task drops its guard, by a panic or by ending, is not told apart.
- Lifecycle.LifecycleManager.Reload: the handlers run one after the other in the loop and in any order in the machine; their overlapping in time is not modelled.
- ProxyStream.Accept: at the end of the stream the source keeps reading nothing; the model stops there with the outcome `Waiting`. Pending polls and write operations of the rewinding stream are not modelled.
- Sprintf.Display: filling a message with arguments is not modelled, nor are the positions in parse errors.
- TreeCodec.Deserialize: documents are objects, arrays, strings, null and other scalars; numbers and the text of JSON are not modelled.
- ConfigSync.Database.ConfigSync: secrets appear as readable or not; the remaining settings are copied as one text; grants and sessions deleted together with a client are not modelled.
- Devices.Synapse.SyncDevices: display names and the reasons of failed requests are not modelled, and nobody else changes the devices meanwhile.
- Ulid.DatetimeRoundTripIff: the timestamp of an identifier is taken to be its top 48 bits.
- The user-agent parser, the policy engine and the database migrations are not part of this project.
