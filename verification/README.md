# Verified model of CLP's encoding, search and job protocols

CLP compresses log messages into a *logtype* (the constant text with placeholders) and a list of
64-bit *encoded variables*, keeps strings that are not numeric in a *variable dictionary*, and searches
the result without decompressing it. Around that core, coordinators drive compression and query jobs
on the Spider task system through rows of a job table. This project models those parts in Dafny and
proves what they promise.

**Encoding and decoding.** `Words`, `Decimal`, `FloatVar` and `IntegerVar` model the packing of decimal
texts into 64-bit words, bit operation by bit operation, and the in-place decoder. `Logtype`, `Parsing`,
`Message`, `DictionaryIds`, `VariableEntries` and `Interpreter` model the parsing of a message, the
dictionary writer, the stored logtype and the decoder; `VariableText` says which words of a message are
variables, without the parser. The main result is
`Interpreter.CompressThenDecompress`: for every message, what is compressed, stored, read back and
decompressed is the message, and the only way to fail is that its variables need more IDs than are left.

**Search.** `Search` models the query side of variable encoding and states exactly when it finds what
compression stored; `SearchIgnoringCase` does the same for queries in any case. `Wildcard` models the backtracking wildcard matcher with its two bookmarks and
`WildcardMeaning` gives patterns an independent meaning as token sequences; `WildcardScan`,
`WildcardRestart` and `WildcardProofs` show where the two agree, `WildcardSample`, `WildcardMisread` and
`WildcardExact` where they do not, and `WildcardCleanup` adds the clean-up of patterns and the two numeric
prefilters.

**Reading and indexing.** `BufferedReader` models the checkpointed reader over an in-memory source and
shows that every sequence of operations gives what an unbuffered reader would give, up to two hazards
whose conditions are exact. `SegmentIndex`
models the bit-array set of IDs, the segment index that is written from it and the reader that inverts it.

**Task inputs.** `RoundRobin`, `Partition` and `TaskInputs` model how a compression job's objects are
looked up, grouped by similar filenames, taken round-robin and cut into task inputs.

**Job protocols.** `JobCoordinator` is the transition system that the query and the compression
coordinator share: the job table, fetches, permits, spawned handles, dispatch marks, crashes and
restarts; `JobTakeover` counts what one coordinator leaves for the next. `QueryJobs`, `QueryJobsProofs`,
`QueryJobsProgress`, `QueryJobsOutcome` and `QueryJobHandle` add the API server's cancel and the query-job
handles; `CompressionJobs`, `CompressionJobsProofs`, `CompressionJobsProgress`, `CompressionJobsOutcome`,
`CompressionJobsSuccess` and `CompressionJobHandle` add the compression-job handles and Spider's commit
task. The two outcome modules tie every recorded end to the report that caused it, in both directions. Results are stated over
all runs, that is, over all interleavings of all parties, with database updates that fail or are applied
without being reported. `QueryJobsRuns` and `CompressionJobsRuns` give runs, from an empty job table, for
what is not promised. `IngestionJobs` models the table of ingestion jobs and its prefix-conflict rule.

The assumptions of the job models are those of the programs: one coordinator at a time, handles that
end with their process, Spider IDs that are never reused, no other writers of the job table, and a Spider
compression job that succeeds only after its commit task did.

Where the code and what it promises differ, the model follows the code, and the difference is stated
exactly:

- The wildcard matcher, when its pattern ends before the string, goes back to the last group but keeps
  the position past an escape. A last group that begins with an escaped `*` is then misjudged, whatever
  follows. One that begins with escaped escapes is read from its second character on, and is misjudged
  exactly if that reading, or the group itself, can follow a match in a certain way (`Wildcard.EscapesSafe`).
  `WildcardExact.RightExactlyWhenSafe` states this as an if-and-only-if for all clean patterns.
- A failed seek past the end of the source, under a checkpoint and with unread data buffered, moves the
  buffer's head but not the reader's position. Clearing a checkpoint when all buffered data was read
  shrinks the buffer to nothing. Both conditions are exact (`Reader.TrySeekFromBegin`, `Reader.ClearCheckpoint`).
- The numeric prefilters turn a pattern away for an escape that cleaning would have removed.
- A query for an escaped numeric text finds the dictionary but not the encoded number.
- Reading new dictionary entries a second time reads past the end of the segment index, whatever was
  added, exactly if the first read found a segment: the count of segments read is never advanced
  (`SegmentIndex.ReadTwice`). The bit-array set never grows past a capacity below 2.
- A compression job's recorded success can be overwritten by a failure report. `CompressionJobsSuccess`
  names six outside events without which that cannot happen, and `CompressionJobsRuns` shows that each of
  them alone is enough.
- The documentation bounds the jobs that a restarted coordinator takes over by the number of permits.
  After a rejected last update the job is given up but stays pending, so the bound is the number of
  permits and of such updates; `QueryJobsRuns.BoundCanFail` is a run with two jobs and one permit, and
  `CompressionJobsRuns.BoundCanFail` one for a job that the compression coordinator leaves to another handler.
- A query job that is cancelled while nothing holds it stays in the cancelling status, and so does one
  that is being cancelled at a crash or at a rejected last update; there is no other way.
- The documentation of the ingestion conflict rule names region, bucket and dataset; the code also
  compares the endpoint.

## Model

| member | source | states |
|---|---|---|
| `FloatVar.ConvertStringToFloatVar` | components/core/src/clp/EncodedVariableInterpreter.cpp:64-143 | accepts exactly the texts `-?d*.d+` with 1 to 16 digits and a digit after the point, and gives their encoding |
| `FloatVar.ScanFloat` | components/core/src/clp/EncodedVariableInterpreter.cpp:64-112 | the single scan finds the sign, the digits and the point exactly when the text is a float text |
| `Decimal.DigitsInOrder` | components/core/src/clp/EncodedVariableInterpreter.cpp:95-101 | the digit characters in order of their values |
| `Decimal.ValueOrders` | components/core/src/clp/EncodedVariableInterpreter.cpp:95-101 | digit strings of one length are in the order of the numbers they denote |
| `FloatVar.PackIsLayout` | components/core/src/clp/EncodedVariableInterpreter.cpp:113-140 | the shifts and ors put sign, digits, digit count and point position into fields that do not overlap |
| `FloatVar.DigitsFit` | components/core/src/clp/EncodedVariableInterpreter.cpp:113-140 | 16 decimal digits always fit the 54-bit field |
| `FloatVar.UnpackPack` | components/core/src/clp/EncodedVariableInterpreter.cpp:145-160 | unpacking inverts packing on every encodable float |
| `FloatVar.FloatTextOfParts` | components/core/src/clp/EncodedVariableInterpreter.cpp:145-198 | the printed form of the parsed fields is the original text, leading and trailing zeros included |
| `FloatVar.ConvertEncodedFloatToString` | components/core/src/clp/EncodedVariableInterpreter.cpp:145-198 | the in-place, right-to-left decoder prints exactly the text that the fields stand for |
| `FloatVar.PrintDigits` | components/core/src/clp/EncodedVariableInterpreter.cpp:172-190 | the two digit loops print every digit in its place, skip the point, and leave the right number of characters to fill |
| `FloatVar.DecodeParts` | components/core/src/clp/EncodedVariableInterpreter.cpp:160-198 | digits, zeros and point together give the text; every index written lies inside it |
| `FloatVar.RoundTrip` | components/core/src/clp/EncodedVariableInterpreter.cpp:64-198 | encoding then decoding any float text gives the text back |
| `FloatVar.EncodingInjective` | components/core/src/clp/EncodedVariableInterpreter.cpp:64-143 | two float texts with one encoding are the same text |
| `IntegerVar.ConvertInvertsIntText` | components/core/src/clp/EncodedVariableInterpreter.cpp:25-62 | a text converts to n exactly when it is the canonical decimal text of a 64-bit n: no plus sign, no zero padding, no -0 |
| `IntegerVar.ConvertOfIntText` | components/core/src/clp/EncodedVariableInterpreter.cpp:25-62 | every 64-bit integer, as printed on decoding, converts back to itself |
| `IntegerVar.IntTextOfConvert` | components/core/src/clp/EncodedVariableInterpreter.cpp:25-62 | whatever converts is printed back unchanged |
| `Logtype.LogTypeDictionaryEntry.AddStaticText` | components/core/src/clp/LogTypeDictionaryEntry.cpp:69-77 | appends the text with an escape before every character that reads as a placeholder, in runs |
| `Logtype.LogTypeDictionaryEntry.AddPlaceholder` | components/core/src/clp/LogTypeDictionaryEntry.cpp:48-61 | appends a placeholder and records its position |
| `Logtype.LogTypeDictionaryEntry.AddEscape` | components/core/src/clp/LogTypeDictionaryEntry.cpp:63-67 | records an escape as a placeholder and counts it |
| `Logtype.LogTypeDictionaryEntry.ReadFrom` | components/core/src/clp/LogTypeDictionaryEntry.cpp:119-179 | rebuilds value, positions and escape count from the stored text alone |
| `Logtype.ScanCounts` | components/core/src/clp/LogTypeDictionaryEntry.cpp:119-179 | every entry read back counts its escapes correctly, so the decoder sees the right number of variables |
| `Logtype.StaticTextKeepsScanned` | components/core/src/clp/ir/parsing.inc:12-33 | escaped constant text reads back as it was written, whatever characters it holds |
| `Logtype.PlaceholderKeepsScanned` | components/core/src/clp/LogTypeDictionaryEntry.cpp:48-61 | an appended placeholder reads back as a placeholder |
| `Parsing.GetBoundsOfNextVar` | components/core/src/clp/ir/parsing.cpp:37-88 | returns the first token from a position on that is a variable, and none is passed over |
| `Parsing.ScanToken` | components/core/src/clp/ir/parsing.cpp:55-75 | finds the whole token and whether it holds a digit and a letter |
| `VariableText.SeparatorsAre` | components/core/src/clp/ir/parsing.cpp:20-24 | the characters that end a token are exactly those that are no letter, no digit and none of plus, minus, point, backslash and underscore |
| `VariableText.VariablesSplit` | components/core/src/clp/ir/parsing.cpp:37-88 | cut at any separator, a message's variables are those of the part before it and those from it on |
| `VariableText.WordInMessage` | components/core/src/clp/ir/parsing.cpp:37-88 | a word between separators, anywhere in any message, is a variable exactly if it holds a digit, comes directly after '=' and holds a letter, or is a hexadecimal number of two or more digits |
| `VariableText.LettersInMessage` | components/core/src/clp/ir/parsing.cpp:37-88 | a word of letters is a variable after '='; after any other separator exactly if it is a hexadecimal number of two or more digits |
| `VariableText.IntegerIsVariable` | components/core/src/clp/ir/parsing.cpp:20-88 | the text of every integer is one variable, the only one in it |
| `VariableText.FloatIsVariable` | components/core/src/clp/ir/parsing.cpp:20-88 | the text of every float is one variable: neither its sign nor its point ends it |
| `Interpreter.ParseNextVar` | components/core/src/clp/LogTypeDictionaryEntry.cpp:79-104 | adds exactly the constant text up to the next variable, or to the end |
| `Interpreter.VariableDictionaryWriter.AddEntry` | components/core/src/clp/VariableDictionaryWriter.cpp:11-41 | gives a stored string its old ID and a new one the next ID; fails exactly when a new string finds no ID left |
| `Interpreter.EncodeVar` | components/core/src/clp/EncodedVariableInterpreter.hpp:658-693 | integer, then float, then dictionary: placeholder, value, IDs and new entry for each kind, and failure exactly when a new string finds no ID left |
| `Interpreter.EncodeAndAddToDictionary` | components/core/src/clp/EncodedVariableInterpreter.hpp:342-361 | the logtype is the text outside the variables, escaped, with a placeholder of its kind for each variable; the encoded variables stand for the variables one by one; what is stored decodes to the message, the reported IDs are exactly those decoding looks up, in order, and the dictionary grows by exactly the new dictionary variables of the message; it fails exactly if those do not all get an ID |
| `Interpreter.DecodeVariablesIntoMessage` | components/core/src/clp/EncodedVariableInterpreter.hpp:510-579 | the decoding loop computes the reference decoding, errors included |
| `Interpreter.DecodePlaceholder` | components/core/src/clp/EncodedVariableInterpreter.hpp:535-571 | one placeholder: escape, integer, float through the in-place decoder, dictionary entry, or the error each can raise |
| `Interpreter.CompressThenDecompress` | components/core/src/clp/EncodedVariableInterpreter.hpp:342-579 | compressing, storing the logtype, reading it back and decompressing any message gives the message; it fails exactly if the variables of the message need more IDs than there are |
| `Interpreter.CompressInteger` | components/core/src/clp/EncodedVariableInterpreter.hpp:342-693 | the text of any 64-bit integer alone is stored as exactly that integer under one integer placeholder, with no dictionary entry |
| `Interpreter.CompressFloat` | components/core/src/clp/EncodedVariableInterpreter.hpp:342-693 | the text of any float alone is stored as one encoded variable that prints as that text, under one float placeholder, with no dictionary entry |
| `VariableEntries.FirstVariable` | components/core/src/clp/EncodedVariableInterpreter.hpp:342-361 | the variables of a message are its first variable and then those after it, whichever way the first is found |
| `VariableEntries.LogtypeNext` | components/core/src/clp/EncodedVariableInterpreter.hpp:342-361 | the logtype goes on with the text up to the first variable and a placeholder of its kind |
| `VariableEntries.EntriesAre` | components/core/src/clp/VariableDictionaryWriter.cpp:11-41 | a string is an entry exactly if it was one or is a dictionary variable among those encoded |
| `VariableEntries.EntriesGrow` | components/core/src/clp/VariableDictionaryWriter.cpp:11-41 | entries are only appended, never twice, and never for a numeric variable |
| `Message.RepresentsStaticText` | components/core/src/clp/EncodedVariableInterpreter.hpp:510-579 | adding constant text appends exactly that text to what the stored form decodes to |
| `Message.RepresentsVariable` | components/core/src/clp/EncodedVariableInterpreter.hpp:658-693 | adding a variable of any kind appends exactly its text |
| `Message.RepresentsWithMoreEntries` | components/core/src/clp/EncodedVariableInterpreter.hpp:510-579 | a growing dictionary never changes what an older message decodes to |
| `Message.PiecesRoundTrip` | components/core/src/clp/EncodedVariableInterpreter.hpp:510-579 | any interleaving of constants and variables decodes to their concatenation |
| `DictionaryIds.StaticTextLooksUpNothing` | components/core/src/clp/EncodedVariableInterpreter.hpp:342-361 | constant text, escapes included, adds nothing to the dictionary IDs that decoding looks up |
| `DictionaryIds.LookedUpNext` | components/core/src/clp/EncodedVariableInterpreter.hpp:680-693 | a variable adds its own ID exactly if it is stored in the dictionary |
| `Search.UnescapeString` | components/core/src/clp/string_utils/string_utils.cpp:190-204 | the loop computes the unescaping function |
| `Search.UnescapeFixpoint` | components/core/src/clp/string_utils/string_utils.cpp:190-204 | unescaping leaves a string alone exactly when it holds no escape |
| `Search.UnescapeOfEscapeAll` | components/core/src/clp/string_utils/string_utils.cpp:190-204 | every string has an escaped form that unescapes to it |
| `Search.GetEntryMatchingValue` | components/core/src/clp/DictionaryReader.hpp:243-272 | case-sensitive: the first equal entry or nothing; ignoring case: all and only the entries that agree in length and, at every index, in the character or, for letters, in its other case, ascending |
| `Search.UpperComparesButForCase` | components/core/src/clp/DictionaryReader.hpp:257-270 | uppercase copies are equal exactly if the strings agree but for the case of ASCII letters, whose codes are 32 apart |
| `Search.EncodeAndSearchDictionary` | components/core/src/clp/EncodedVariableInterpreter.hpp:582-627 | numeric strings become encoded values without a lookup; others the entries that match; not found otherwise |
| `Search.SearchAgreesWithCompression` | components/core/src/clp/EncodedVariableInterpreter.hpp:582-627 | against any dictionary that holds the string if it needed an entry: a case-sensitive query finds the kind and value that compression stored exactly when it has no escape or stands for a dictionary string |
| `Search.EscapedNumberIsMissed` | components/core/src/clp/EncodedVariableInterpreter.hpp:582-627 | a number written with an escape is not found in any dictionary that compression can build |
| `Search.EscapedOneIsMissed` | components/core/src/clp/EncodedVariableInterpreter.hpp:582-627 | one such query: an escape and the digit 1 |
| `Search.EveryVariableIsSearchable` | components/core/src/clp/EncodedVariableInterpreter.hpp:582-627 | the escaped form of any stored variable finds it |
| `Search.EncodeThenSearch` | components/core/src/clp/EncodedVariableInterpreter.hpp:582-693 | encoding any variable and then searching for its escaped form gives the placeholder, the value and the ID that were stored |
| `Search.CompressThenSearch` | components/core/src/clp/EncodedVariableInterpreter.hpp:342-627 | after compressing any messages a query is not found exactly if it is not numeric as written and does not stand for a dictionary variable of one of the messages |
| `SearchIgnoringCase.QueryStandsFor` | components/core/src/clp/EncodedVariableInterpreter.hpp:582-627 | a query that differs from the escaped form of a variable only in case is classified as the variable is and unescapes to it up to case |
| `SearchIgnoringCase.EveryCaseIsSearchable` | components/core/src/clp/EncodedVariableInterpreter.hpp:582-627 | the escaped form of any stored variable, in any case, finds it ignoring case; whatever else is found is exactly the entries that differ from it only in case |
| `SearchIgnoringCase.EncodeThenSearchIgnoringCase` | components/core/src/clp/EncodedVariableInterpreter.hpp:582-693 | encoding any variable and then searching, ignoring case, for any re-casing of its escaped form gives the placeholder and the value stored, alone or among the entries that differ in case |
| `SearchIgnoringCase.CompressThenSearchIgnoringCase` | components/core/src/clp/EncodedVariableInterpreter.hpp:342-627 | after compressing any messages a query is not found, ignoring case, exactly if it is not numeric as written and no dictionary variable of any message agrees with it but for case |
| `WildcardProofs.WildcardMatchUnsafeCaseSensitive` | components/core/src/clp/string_utils/string_utils.cpp:233-334 | the loop with its bookmarks computes the matcher; on clean patterns that are safe to restart it decides the meaning |
| `WildcardProofs.AdvanceTameToNextMatch` | components/core/src/clp/string_utils/string_utils.cpp:34-73 | finds the next place where a group can begin |
| `WildcardProofs.MatcherCorrect` | components/core/src/clp/string_utils/string_utils.cpp:233-334 | for every string and every clean pattern that is safe to restart, the answer is exactly whether it matches; safe is a condition on the tokens of the last group alone |
| `WildcardProofs.AdvanceSkipsNothing` | components/core/src/clp/string_utils/string_utils.cpp:34-73 | no place where the group matches is passed over |
| `WildcardProofs.StarForgetsMark` | components/core/src/clp/string_utils/string_utils.cpp:254-270 | a new star makes the older bookmark irrelevant: greedy groups lose no match |
| `WildcardProofs.EscapedStarExactly` | components/core/src/clp/string_utils/string_utils.cpp:319-332 | the exact set of strings accepted for the pattern `*\*`, right and wrong |
| `WildcardProofs.EscapedEscapeReadsPastEnd` | components/core/src/clp/string_utils/string_utils.cpp:319-332 | for the pattern `*\\` the matcher can read past the end of its pattern |
| `WildcardExact.RightExactlyWhenSafe` | components/core/src/clp/string_utils/string_utils.cpp:233-334 | for every clean pattern: the matcher is right about every string exactly if the pattern is safe to restart |
| `WildcardExact.StarThenRestAccepted` | components/core/src/clp/string_utils/string_utils.cpp:319-332 | for every pattern whose last group begins with an escaped `*`, whatever follows: a string that is accepted |
| `WildcardExact.StarThenRestNotMatched` | components/core/src/clp/string_utils/string_utils.cpp:319-332 | and that same string does not match |
| `WildcardMisread.OverlapTurnedAway` | components/core/src/clp/string_utils/string_utils.cpp:319-332 | for every pattern whose last group is an escaped escape and an ordinary character, and can match again at a shift: a string that matches and is turned away |
| `WildcardMisread.SlipAccepted` | components/core/src/clp/string_utils/string_utils.cpp:319-332 | the same for an escaped escape and an escaped `?`, which is then read as any character: a string that does not match and is accepted |
| `WildcardMisread.NextTurnedAway` | components/core/src/clp/string_utils/string_utils.cpp:319-332 | for several escaped escapes that can match again one character later: a string that matches and is turned away |
| `WildcardMisread.TripTurnedAway` | components/core/src/clp/string_utils/string_utils.cpp:319-332 | for two escaped escapes whose group can follow itself: a string that matches and is turned away |
| `WildcardMisread.TripAccepted` | components/core/src/clp/string_utils/string_utils.cpp:319-332 | for two escaped escapes whose misreading can follow the group: a string that does not match and is accepted |
| `WildcardExact.EarlyEscapeAccepted` | components/core/src/clp/string_utils/string_utils.cpp:319-332 | for every last group of an escaped escape, an escaped `*` and an escaped escape: a string that does not match and is accepted |
| `WildcardExact.LateEscapeAccepted` | components/core/src/clp/string_utils/string_utils.cpp:319-332 | for every other last group of an escaped escape and an escaped `*`, whatever follows: such a string |
| `WildcardExact.AcceptChain` | components/core/src/clp/string_utils/string_utils.cpp:233-332 | however many escaped stars are read as stars one after another, the padded string is accepted in the end |
| `WildcardExact.OverlapDecides` | components/core/src/clp/string_utils/string_utils.cpp:233-334 | the condition separates `*\\a`, which is misjudged, from `*\\a\\b`, which is not |
| `WildcardExact.PairsDecide` | components/core/src/clp/string_utils/string_utils.cpp:233-334 | the condition separates `*\\\?` and `*\\\*`, which are misjudged, from `*\\\\\*`, which is not |
| `WildcardScan.ScanFirstFull` | components/core/src/clp/string_utils/string_utils.cpp:34-73 | the search with its restarts finds the first place where an escaped group matches, and starts over exactly if the string goes on |
| `WildcardRestart.RestartSkips` | components/core/src/clp/string_utils/string_utils.cpp:319-332 | starting over at an escaped escape before an ordinary character skips the next escape in the string |
| `WildcardRestart.RestartRight` | components/core/src/clp/string_utils/string_utils.cpp:319-332 | for every safe group that begins with escaped escapes, starting over after a match accepts exactly if the string ends with the group |
| `WildcardRestart.MisreadTokens` | components/core/src/clp/string_utils/string_utils.cpp:319-332 | what is read in place of the group when reading starts at its second character |
| `WildcardRestart.RestartWalk` | components/core/src/clp/string_utils/string_utils.cpp:319-332 | starting over tries that, not the group, at the next escape |
| `WildcardRestart.NextMove` | components/core/src/clp/string_utils/string_utils.cpp:319-332 | for every safe group, what starting over comes to: an answer, a search or another start, and no match is missed |
| `WildcardSample.StraightRun` | components/core/src/clp/string_utils/string_utils.cpp:248-318 | on a string with one character per token the matcher reaches any given star without going back |
| `WildcardSample.TailMatches` | components/core/src/clp/string_utils/string_utils.cpp:233-334 | what follows the last star must match the end of the string |
| `WildcardMisread.EscapesReadPastEnd` | components/core/src/clp/string_utils/string_utils.cpp:319-332 | for every pattern that ends in a star and any number of escaped escapes: a string on which the pattern is read past its end |
| `WildcardCleanup.CleanUpWildcardSearchString` | components/core/src/clp/string_utils/string_utils.cpp:153-188 | the loop computes the clean-up function |
| `WildcardCleanup.CleanUpKeepsMeaning` | components/core/src/clp/string_utils/string_utils.cpp:153-188 | cleaning a pattern changes the meaning for no string |
| `WildcardCleanup.CleanUpIsClean` | components/core/src/clp/string_utils/string_utils.cpp:153-188 | the result has no double stars, no dangling and no needless escapes |
| `WildcardCleanup.CleanThenMatch` | components/core/src/clp/string_utils/string_utils.cpp:153-334 | for every pattern: cleaning it and then matching decides the meaning of the original pattern for all strings exactly if the cleaned one is safe to restart |
| `WildcardCleanup.IntegerCheckNeverMisses` | components/core/src/clp/EncodedVariableInterpreter.cpp:200-209 | the prefilter passes every cleaned pattern that some integer text matches; an uncleaned one exactly if it has no escape |
| `WildcardCleanup.FloatCheckNeverMisses` | components/core/src/clp/EncodedVariableInterpreter.cpp:211-221 | the same for float texts |
| `WildcardCleanup.ChecksAreExact` | components/core/src/clp/EncodedVariableInterpreter.cpp:200-221 | a cleaned, non-empty pattern passes a prefilter exactly if it matches some string of the characters integers, or floats, are written with |
| `WildcardCleanup.UncleanedPatternMisses` | components/core/src/clp/EncodedVariableInterpreter.cpp:200-209 | a pattern that matches an integer and that the prefilter, without cleaning, turns away |
| `BufferedReader.Create` | components/core/src/clp/BufferedReader.cpp:20-43 | refuses a size that is no multiple of 4096; the new reader is in step with its source exactly if that is at its start |
| `BufferedReader.Reader.RefillReaderBuffer` | components/core/src/clp/BufferedReader.cpp:204-244 | appends under a checkpoint and reuses the buffer otherwise; always asks for something and never overruns the buffer |
| `BufferedReader.PlanRefill` | components/core/src/clp/BufferedReader.cpp:204-232 | where the next bytes go and how many are asked for, in every mode |
| `BufferedReader.ToBoundaryFormula` | components/core/src/clp/BufferedReader.cpp:222-230 | how far a refill without a checkpoint reaches: to the next multiple of the base size |
| `BufferedReader.RoundUpFormula` | components/core/src/clp/math_utils.hpp:12-18 | the rounding formula gives the least multiple that is not below the value |
| `BufferedReader.Reader.DropContentBeforeCurrentPos` | components/core/src/clp/BufferedReader.cpp:246-256 | keeps exactly the unread data and shrinks the buffer to a multiple of its base size |
| `BufferedReader.Reader.SetCheckpoint` | components/core/src/clp/BufferedReader.cpp:56-64 | the checkpoint is the head, and the data from there on stays available |
| `BufferedReader.Reader.ClearCheckpoint` | components/core/src/clp/BufferedReader.cpp:66-78 | moves to the highest position read; room to refill remains exactly if unread data is buffered there |
| `BufferedReader.Reader.TrySeekFromBegin` | components/core/src/clp/BufferedReader.cpp:85-125 | for every target: result code, new position, highest position; the place is lost exactly on a failed seek under a checkpoint with unread data |
| `BufferedReader.Reader.TryRefillBufferIfEmpty` | components/core/src/clp/BufferedReader.cpp:45-50 | buffers data without moving the head |
| `BufferedReader.Reader.PeekBufferedData` | components/core/src/clp/BufferedReader.cpp:52-54 | gives exactly the source bytes between the head and the end of the buffered data |
| `BufferedReader.Reader.RefillAndPeek` | components/core/src/clp/clp/FileCompressor.cpp:132-152 | looking ahead shows some of the source bytes at the head without moving, and none exactly at the end |
| `BufferedReader.Reader.TryRead` | components/core/src/clp/BufferedReader.cpp:127-161 | returns exactly the source bytes from the head on, across refills, and end-of-file exactly when there are none |
| `BufferedReader.Reader.TryReadToDelimiter` | components/core/src/clp/BufferedReader.cpp:163-202 | returns the source bytes up to the next delimiter, wherever the buffer boundaries fall |
| `BufferedReader.BufferReader.TryRead` | components/core/src/clp/BufferReader.cpp:60-81 | reads from memory |
| `BufferedReader.BufferReader.TryReadToDelimiter` | components/core/src/clp/BufferReader.cpp:24-58 | reads from memory to a delimiter, found or not, kept or not |
| `BufferedReader.BufferReader.TrySeekFromBegin` | components/core/src/clp/BufferReader.cpp:83-89 | seeks in memory |
| `BufferedReader.Reader.Perform` | components/core/src/clp/BufferedReader.cpp:20-261 | each operation, refilling and peeking included, gives the output and state of an unbuffered reader with a checkpoint |
| `BufferedReader.Reader.Replay` | components/core/src/clp/BufferedReader.cpp:20-261 | so does every sequence of operations, up to the first that meets one of the two hazards above |
| `BufferedReader.CheckpointStands` | components/core/src/clp/BufferedReader.cpp:56-125 | from a checkpoint on, after any reads and seeks, every position since it can be sought and read again |
| `BufferedReader.Reader.ReturnToCheckpoint` | components/core/src/clp/BufferedReader.cpp:56-161 | the same of the buffered reader: after any reads and seeks under a checkpoint, every position from it on can be sought and read again |
| `BufferedReader.NothingBeyondHighest` | components/core/src/clp/BufferedReader.cpp:258-261 | no position ever reached exceeds the recorded highest |
| `BufferedReader.HighestWasReached` | components/core/src/clp/BufferedReader.cpp:258-261 | and the recorded highest was reached |
| `BufferedReader.FailedSeekLosesPlace` | components/core/src/clp/BufferedReader.cpp:85-125 | for any non-empty source: a failed seek after which head and buffer disagree |
| `BufferedReader.ClearAtBufferEndLeavesNoRoom` | components/core/src/clp/BufferedReader.cpp:66-78 | for any source longer than the buffer: clearing a checkpoint after which nothing more can be buffered |
| `SegmentIndex.GrowthReaches` | components/core/src/clp/ArrayBackedPosIntSet.hpp:187-198 | growing by half reaches past a value exactly when the capacity starts past it or is at least 2 |
| `SegmentIndex.PosIntSet.IncreaseCapacity` | components/core/src/clp/ArrayBackedPosIntSet.hpp:187-198 | makes the value a valid index and keeps the members |
| `SegmentIndex.PosIntSet.Insert` | components/core/src/clp/ArrayBackedPosIntSet.hpp:117-132 | adds exactly the value; size stays the number of members and the largest value an upper bound |
| `SegmentIndex.PosIntSet.InsertAllFromSet` | components/core/src/clp/ArrayBackedPosIntSet.hpp:136-159 | adds exactly the other set, aliased or not |
| `SegmentIndex.PosIntSet.InsertAllFromVector` | components/core/src/clp/ArrayBackedPosIntSet.hpp:169-173 | adds exactly the values listed |
| `SegmentIndex.PosIntSet.WriteToCompressor` | components/core/src/clp/ArrayBackedPosIntSet.hpp:176-184 | writes each member once, ascending, as many as the recorded size |
| `SegmentIndex.SegmentIndexWriter.IndexSegment` | components/core/src/clp/DictionaryWriter.hpp:184-206 | logs one record with exactly the members of the set, or nothing if closed |
| `SegmentIndex.ParseEncode` | components/core/src/clp/DictionaryReader.hpp:293-308 | parsing as many records as were written gives them back and leaves nothing |
| `SegmentIndex.SegmentIndexReader.ReadSegmentIds` | components/core/src/clp/DictionaryReader.hpp:293-308 | adds the segment to exactly the listed entries; which error when the record is cut short or lists an unknown ID |
| `SegmentIndex.SegmentIndexReader.ReadNewEntries` | components/core/src/clp/DictionaryReader.hpp:178-217 | every entry gains exactly the segments of the new records; all error cases |
| `SegmentIndex.FailureMeaning` | components/core/src/clp/DictionaryReader.hpp:293-308 | reading fails exactly when a record is missing or lists an unknown ID |
| `SegmentIndex.ReadBack` | components/core/src/clp/DictionaryReader.hpp:178-217 | what was indexed is read back inverted, and fails exactly when a listed ID is unknown |
| `SegmentIndex.ReadTwice` | components/core/src/clp/DictionaryReader.hpp:178-217 | for any segments indexed before the first read and any added after it: the second read succeeds exactly if nothing was indexed before the first and the new IDs are known, and which error it gives otherwise |
| `SegmentIndex.FailureOfLog` | components/core/src/clp/DictionaryReader.hpp:293-308 | reading more records than were written: an unknown ID is reported first, then the end of the index |
| `SegmentIndex.IndexThenRead` | components/core/src/clp/DictionaryReader.hpp:178-308 | for any segments and ID lists: indexing and reading back gives every entry exactly the segments that listed it, and fails exactly when a listed ID is unknown |
| `RoundRobin.GroupFilesBySimilarFilenames` | components/compression-coordinator/src/partition.rs:290-310 | the groups are the sorted files in order, split exactly where neighbours are dissimilar |
| `RoundRobin.SortByNameSorts` | components/compression-coordinator/src/partition.rs:290-296 | sorted by filename, and files with one name keep their order |
| `RoundRobin.LeqIs` | components/compression-coordinator/src/partition.rs:290-296 | a name sorts before another if it is a prefix of it or has the smaller character where they first differ |
| `RoundRobin.RoundRobinIterator.Next` | components/compression-coordinator/src/partition.rs:223-234 | takes the first file of the front group, which goes to the back if files are left |
| `RoundRobin.RoundRobinIterator.IntoFlatten` | components/compression-coordinator/src/partition.rs:213-220 | the files not yet yielded |
| `RoundRobin.DrainIsColumnMajor` | components/compression-coordinator/src/partition.rs:223-234 | the iterator yields all first members in group order, then all second members, and so on |
| `RoundRobin.RotateKeeps` | components/compression-coordinator/src/partition.rs:223-234 | at every step the yielded file and the files left are the files there were |
| `Partition.DrainPermutes` | components/compression-coordinator/src/partition.rs:192-234 | draining the iterator yields exactly the files of the groups |
| `Partition.CompressionInputBuilder.Add` | components/compression-coordinator/src/partition.rs:71-98 | accepts a file exactly if bucket and prefix fit; it is only buffered while the buffered total stays below twice the target, and otherwise inputs are emitted until less than the target is left; the total stays exact |
| `Partition.EstimateIs` | components/compression-coordinator/src/partition.rs:241-265 | keys that end in .gz, .gzip or .tgz in any case count 13 times their size, those in .zst 8 times, all others once |
| `Partition.CompressionInputBuilder.PartitionBuffer` | components/compression-coordinator/src/partition.rs:138-167 | cuts the buffer in round-robin order into full partitions, plus one partial one on the last flush; the rest stays below the target |
| `Partition.CompressionInputBuilder.CutPartitions` | components/compression-coordinator/src/partition.rs:145-167 | the nested loops end, lose no file, and leave less than the target or nothing |
| `Partition.CompressionInputBuilder.FillPartition` | components/compression-coordinator/src/partition.rs:145-160 | a full partition reaches the target and falls below it without its last file |
| `Partition.CompressionInputBuilder.PushInputSource` | components/compression-coordinator/src/partition.rs:120-132 | emits a task input for every non-empty partition and none for an empty one, with the configuration's endpoint, region, bucket and authentication and the partition's keys in order |
| `Partition.CompressionInputBuilder.IntoTaskInputSources` | components/compression-coordinator/src/partition.rs:108-116 | the emitted keys are exactly the accepted files, as a multiset, in partitions cut as promised; every input has the configuration's endpoint, region, bucket and authentication |
| `TaskInputs.Dedup` | components/compression-coordinator/src/job_handle.rs:281-298 | the duplicates are exactly the IDs requested more than once, ascending, each once |
| `TaskInputs.AddChunk` | components/compression-coordinator/src/job_handle.rs:299-354 | one chunk stops at its first problem or adds every row |
| `TaskInputs.PrepareTaskInputs` | components/compression-coordinator/src/job_handle.rs:269-379 | every error case in order; success exactly when every requested ID has a usable row, over all chunks, with one key per ID; every input has the configuration's endpoint, region, non-empty bucket and authentication, and every key is non-empty and under the prefix |
| `JobCoordinator.CoordinatorKeeps` | components/query-coordinator/src/coordination.rs:183-540 | every step of a coordinator, crash and restart included, keeps the invariant |
| `JobCoordinator.FetchKeeps` | components/query-coordinator/src/coordination.rs:448-480 | a fetch returns no job that the coordinator already holds, and no more than it has permits for |
| `JobCoordinator.FetchIsGreedy` | components/query-coordinator/src/coordination.rs:448-480 | the first fetch takes exactly the dispatched pending jobs; a later one passes an undispatched job over only if every permit is taken by jobs with lower IDs |
| `JobCoordinator.SpawnKeeps` | components/query-coordinator/src/coordination.rs:228-274 | a new handle gets its own job and, if scheduled, its own permit; a recovered one has its Spider job recorded in the row |
| `JobCoordinator.CoordinatorAwaits` | components/query-coordinator/src/coordination.rs:228-274 | no step of a coordinator makes a handle wait for a Spider job that was not started; a recovered handle starts it first |
| `JobCoordinator.MarkKeeps` | components/query-coordinator/src/coordination.rs:399-421 | marking dispatched jobs takes them out of all later fetches |
| `JobCoordinator.NoSharedJobs` | components/query-coordinator/src/coordination.rs:317-388 | no two live handles drive one job |
| `JobCoordinator.PermitsSuffice` | components/query-coordinator/src/coordination.rs:317-388 | scheduled handles never exceed the permits; after the first fetch no fetched job waits for one |
| `JobCoordinator.ExactlyOneClaim` | components/query-coordinator/src/coordination.rs:228-540 | a pending or running job has exactly one of: a live handle, no handle any more, a place in the batch, given up, recovery, the first fetch or a later one |
| `JobCoordinator.QueriesFollowClaims` | components/query-coordinator/src/coordination.rs:448-540 | the three queries select exactly the jobs with the matching claim |
| `QueryJobsProofs.HandleRow` | components/query-coordinator/src/job_handle.rs:287-316 | start and terminate move a row only forward and record the Spider job with the running status |
| `QueryJobsProofs.CoordinateKeeps` | components/query-coordinator/src/coordination.rs:279-298 | the unguarded failing of a fetched job never overwrites a terminal status |
| `QueryJobsProofs.CancelKeeps` | components/api-server/src/client.rs:429-445 | a cancel is accepted only from pending or running and keeps the invariant |
| `QueryJobsProofs.StepKeeps` | components/query-coordinator/src/job_handle.rs:151-456 | every step of API server, coordinator and handles keeps the invariant and moves rows only forward |
| `QueryJobsProofs.RowsMoveForward` | components/query-coordinator/src/job_handle.rs:287-456 | over every run: terminal statuses never change, a cancelled job is never later running or succeeded, Spider job and dispatch mark stay |
| `QueryJobsProofs.RunningIsRecorded` | components/query-coordinator/src/job_handle.rs:287-316 | over every run: a running row has its Spider job and its dispatch mark |
| `QueryJobsProofs.OneSpiderJob` | components/query-coordinator/src/query_job_submitter/spider.rs:63-80 | over every run, crashes included: at most one Spider job is started per query job, the recorded one |
| `QueryJobsProofs.WaitsForStarted` | components/query-coordinator/src/query_job_submitter/spider.rs:63-80 | over every run, crashes included: a handle waits for a Spider job only if that one was started for its job |
| `QueryJobsProofs.OneHandlePerJob` | components/query-coordinator/src/coordination.rs:183-388 | over every run: no job gets two handles in a coordinator's lifetime |
| `QueryJobsProofs.EveryJobIsClaimedOnce` | components/query-coordinator/src/coordination.rs:183-540 | over every run: permits suffice and every pending or running job has exactly one claim |
| `QueryJobsProofs.StrandedForever` | components/query-coordinator/src/coordination.rs:448-540 | over every run: a cancelling job without a handle stays cancelling for ever |
| `QueryJobsProgress.StrandedExactly` | components/api-server/src/client.rs:429-445 | over every run: a job is stranded exactly if it was cancelled while nobody drove it, or was being cancelled at a crash or at a rejected last update |
| `QueryJobsRuns.JobCanBeStranded` | components/api-server/src/client.rs:429-445 | a run from an empty table that strands a job |
| `QueryJobsProgress.HandleProgress` | components/query-coordinator/src/job_handle.rs:329-456 | a handle takes few steps, tries to end its job at most twice, and ends it exactly unless its last update is rejected |
| `QueryJobsProgress.ServedJobsEnd` | components/query-coordinator/src/job_handle.rs:151-456 | over every run: a job keeps its handle until its row is terminal or its last update was rejected |
| `QueryJobsProgress.TakeoverIsBounded` | components/query-coordinator/src/coordination.rs:423-480 | over every run: a restart's first fetch returns at most as many jobs as there are permits and updates so far that failed to record an end; without such updates no fetched job ever waits |
| `QueryJobsProgress.AbandonedWasRejected` | components/query-coordinator/src/coordination.rs:228-540 | over every run: a pending or running job without a handle to come in this lifetime had its own last update rejected earlier |
| `QueryJobsOutcome.SuccessWasReported` | components/query-coordinator/src/job_handle.rs:151-175 | over every run: a job is recorded as succeeded only after its handle found no archives to search or heard from Spider that the job succeeded; in the second case the recorded Spider job was started |
| `QueryJobsOutcome.FailureWasReported` | components/query-coordinator/src/job_handle.rs:151-456 | over every run: a job is recorded as failed only after a failure of its own, a Spider end that was no success, or being given up |
| `QueryJobsOutcome.CancelWasAsked` | components/api-server/src/client.rs:429-445 | over every run: a job is cancelling or cancelled only after the API server was asked to cancel it |
| `QueryJobsOutcome.ReportIsRecorded` | components/query-coordinator/src/job_handle.rs:329-456 | over every run: once a handle reports an outcome and ends without crash, later cancel or fault, the row has exactly the end that goes with the outcome; for a job never cancelled, success for a success and failure otherwise |
| `QueryJobsRuns.BoundCanFail` | components/query-coordinator/src/coordination.rs:423-480 | a run with one permit and one rejected update after which a restart finds two jobs to fetch at once |
| `QueryJobsRuns.JobCanBeAbandoned` | components/query-coordinator/src/coordination.rs:317-388 | a run after which a job is pending, without a handle and without one to come before a restart |
| `QueryJobHandle.QueryJobHandle.Start` | components/query-coordinator/src/job_handle.rs:287-316 | the transaction that marks a job as running, in every status and with every fault |
| `QueryJobHandle.QueryJobHandle.Terminate` | components/query-coordinator/src/job_handle.rs:412-456 | the transaction that ends a job: failure over cancel over success |
| `QueryJobHandle.QueryJobHandle.FinalizeOnError` | components/query-coordinator/src/job_handle.rs:353-388 | at most one more attempt, with the outcome the error calls for |
| `QueryJobHandle.QueryJobHandle.Run` | components/query-coordinator/src/job_handle.rs:151-176 | for every plan, Spider outcome and cancel: at most two attempts, and without faults a terminal row with the expected verdict |
| `QueryJobHandle.QueryJobHandle.Recover` | components/query-coordinator/src/job_handle.rs:178-196 | for every Spider outcome and cancel: at most two attempts, and without faults the expected verdict |
| `CompressionJobs.HandleRow` | components/compression-coordinator/src/job_handle.rs:185-243 | the unguarded updates of a handle move a row only forward, given the phase it is in |
| `CompressionJobs.StepKeeps` | components/compression-coordinator/src/job_handle.rs:133-539 | every step of coordinator, handles and commit task keeps the invariant |
| `CompressionJobs.CommitKeeps` | components/clp-tdl-package/src/task/compression/commit.rs:75-101 | the commit task publishes and marks only a running job |
| `CompressionJobsProofs.RowsMoveForward` | components/compression-coordinator/src/job_handle.rs:455-475 | over every run: nothing returns to pending, ended jobs stay ended, a persisted Spider ID stays |
| `CompressionJobsProofs.OneSpiderJob` | components/compression-coordinator/src/compression_job_submitter/spider.rs:95-128 | over every run, crashes included: at most one Spider job is started per compression job, the persisted one |
| `CompressionJobsProofs.WaitsForStarted` | components/compression-coordinator/src/compression_job_submitter/spider.rs:95-128 | over every run, crashes included: a handle waits for a Spider job only if that one was started for its job |
| `CompressionJobsProofs.PublishedOnce` | components/clp-tdl-package/src/task/compression/commit.rs:187-217 | over every run: a job's archives are published at most once |
| `CompressionJobsProofs.CommitFindsItsJob` | components/clp-tdl-package/src/task/compression/commit.rs:75-101 | over every run: the lookup by Spider ID finds exactly the job the Spider job was started for |
| `CompressionJobsProofs.EveryJobIsClaimedOnce` | components/compression-coordinator/src/coordination.rs:277-533 | over every run: one handle per job, permits suffice, every pending or running job has exactly one claim |
| `CompressionJobsProgress.HandleProgress` | components/compression-coordinator/src/job_handle.rs:185-243 | every step brings a handle nearer its end; when it ends, its row is terminal exactly if it was or the failure could be reported |
| `CompressionJobsProgress.ServedJobsEnd` | components/compression-coordinator/src/job_handle.rs:133-243 | over every run: a job keeps its handle until its row is terminal or its failure report was rejected |
| `CompressionJobsProgress.AbandonedWasRejected` | components/compression-coordinator/src/coordination.rs:277-342 | over every run: a pending or running job without a handle to come in this lifetime had its own last update rejected earlier |
| `CompressionJobsProgress.TakeoverIsBounded` | components/compression-coordinator/src/coordination.rs:423-480 | over every run: a restart's first fetch returns at most as many jobs as there are permits and updates so far that failed to record an end |
| `CompressionJobsOutcome.EndWasReported` | components/compression-coordinator/src/job_handle.rs:490-539 | over every run: a job is recorded as killed only after Spider reported its job cancelled, and as failed only after a failure of its own or being given up |
| `CompressionJobsOutcome.ReportIsRecorded` | components/compression-coordinator/src/job_handle.rs:490-539 | over every run: once a handle hears that Spider failed or cancelled the job and ends without crash, later commit or fault, the row is failed or killed accordingly, unless it had succeeded |
| `CompressionJobsRuns.BoundCanFail` | components/compression-coordinator/src/coordination.rs:423-480 | a run with one permit and one job skipped without an update after which a restart finds two jobs to fetch at once |
| `CompressionJobsSuccess.SuccessIsPublished` | components/clp-tdl-package/src/task/compression/commit.rs:75-101 | over every run: a job is recorded as succeeded only if its archives are published |
| `CompressionJobsSuccess.SuccessStands` | components/compression-coordinator/src/job_handle.rs:226-243 | over every run in which none of six outside events befalls a job: it is recorded as succeeded exactly if its archives are published |
| `CompressionJobsRuns.EachCauseSuffices` | components/compression-coordinator/src/job_handle.rs:490-539 | for each of the six events: a run from an empty table in which it is the only one and a published job is not recorded as succeeded |
| `CompressionJobHandle.CompressionJobHandle.PersistSpiderJobId` | components/compression-coordinator/src/job_handle.rs:455-475 | records the Spider job and the running status, whatever was there, with every fault |
| `CompressionJobHandle.CompressionJobHandle.ToCompletion` | components/compression-coordinator/src/job_handle.rs:490-539 | a Spider job that succeeded leaves a succeeded row, whatever the database does; otherwise its end is recorded unless a commit was seen; starts only the recorded Spider job |
| `CompressionJobHandle.CompressionJobHandle.Run` | components/compression-coordinator/src/job_handle.rs:133-216 | for every input, Spider outcome, commit and fault: only a persisted Spider job is started, success means a terminal row, and without faults the row gets the expected verdict |
| `CompressionJobHandle.CompressionJobHandle.Recover` | components/compression-coordinator/src/job_handle.rs:158-175 | the same for a recovered job |
| `IngestionJobs.ConflictIsOverlap` | components/log-ingestor/src/ingestion_job_manager.rs:354-356 | two jobs conflict exactly when some object key is covered by both |
| `IngestionJobs.IngestionJobManager.FindConflict` | components/log-ingestor/src/ingestion_job_manager.rs:260-287 | the scan reports a conflicting job exactly if there is one |
| `IngestionJobs.IngestionJobManager.CreateInstance` | components/log-ingestor/src/ingestion_job_manager.rs:245-334 | succeeds exactly for a new ID without conflict that starts; otherwise the table is unchanged and the error says why |
| `IngestionJobs.IngestionJobManager.RemoveInstance` | components/log-ingestor/src/ingestion_job_manager.rs:176-191 | removes the job, if it was there |
| `IngestionJobs.Serve` | components/log-ingestor/src/ingestion_job_manager.rs:176-334 | after any requests no object key is covered by two jobs with the same endpoint, region, bucket and dataset |

## Left out

- Wildcard matching that ignores case: lower-casing both strings first is not modelled; only the case-sensitive matcher is.
- Search.GetEntryMatchingValue: ignoring case folds ASCII letters only; locale-dependent folding is not modelled.
- Interpreter.VariableDictionaryWriter.AddEntry: the next ID is an unbounded number; the wrap-around of a 64-bit ID after the largest one is not modelled.
- Interpreter.DecodePlaceholder, Message.Decode: a float word that no encoder produced decodes to `Malformed`; what the in-place decoder would print for it is not modelled.
- The four-byte encoding and the intermediate-representation paths of the interpreter: they repeat the eight-byte paths with other widths.
- Files, compressors and database drivers: streams are sequences of numbers or characters, and a database update is one atomic step that may be rejected or applied without being reported.
- Reading dictionary entries from disk beyond the logtype's own text, such as IDs and length fields: only the number of entries enters the segment index.
- BufferedReader.Reader.TryRead: the null-buffer check, read errors of the source and a source that can seek past its end are not modelled; a base size of zero, for which the size check divides by zero, is excluded.
- BufferedReader.Reader.Replay: stops at an operation that meets one of the two hazards, since the reader's later behaviour then depends on memory outside the model.
- BufferedReader.Reader.Perform: how much data peeking shows depends on the buffer, so only the first byte of it is compared with the plain source; `BufferedReader.Reader.RefillAndPeek` says what the rest is.
- SegmentIndex.PosIntSet.IncreaseCapacity: capacities below 2 are excluded by the set's invariant, since the growth loop does not end for them; `SegmentIndex.GrowthReaches` states when it does.
- Partition.CompressionInputBuilder.Add: sizes are unbounded numbers, so 64-bit overflow of the size estimate is not modelled, and the target size is positive.
- RoundRobin.GroupFilesBySimilarFilenames: how a filename is taken from a path and the edit distance that makes two of them similar are parameters.
- TaskInputs.PrepareTaskInputs: database errors and the execution policy attached to each input are not modelled; that no input at all results is shown not to happen.
- QueryJobsProgress.ServedJobsEnd, CompressionJobsProgress.ServedJobsEnd: say nothing about how long a handle takes; polling Spider may never return.
- Archive selection, task graphs, execution policies, poll back-off and the legacy scheduler: they would add only easy members.
- Ingestion job recovery and shutdown bookkeeping in the database: only the in-memory table is modelled.
- Everything else in the repository (the web interface, packaging scripts, clp-s, the core's archive and file formats).
