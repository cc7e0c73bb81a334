# aesh console core in Dafny

This project models the command dispatcher and the completion handler of the aesh console
(`AeshConsoleImpl`). It also models the two list accessors of `ParsedLineWords`.

- **Lookup.** A command is looked up in two tiers. The registry is asked first. When the registry
  has no command of that name, the internal registry (present only when the man command is
  enabled) is asked. If neither has it, the registry's `CommandNotFoundException` is raised.
- **Dispatch.** `readConsoleOutput` handles one submitted line.
  - The container the lookup yields is opened with try-with-resources.
  - Inside it the line is parsed, then the command is populated in validation mode.
  - The validator then runs, unless the command has none or an option overrides the required
    ones.
  - Finally `execute` runs with the invocation provider that is currently selected.
  - Each exception class has its own catch clause.
  - The command result becomes the exit code: 0 for `SUCCESS`, 1 for anything else.
- **Completion.** `AeshCompletion.complete` first offers every command name that starts with the
  buffer. Only when there is none does it ask the command's completion parser. Every failure is
  swallowed.

Modules:

- `ParsedLineWords`: `firstWord` and `lastWord` over a sequence of words.
- `Parser`: Java's `String.trim` and the command name of a line.
  - `Parser.findFirstWord` is not part of this model.
  - The model uses the text of `FirstWord` applied to the words of the line. Words are separated
    by any character at or below U+0020, control characters included, which is the set `trim()`
    removes.
- `Collaborators`: the exception classes and the registries.
  - The command container is a value. Each collaborator the core calls is represented by the
    outcome it produces: the parser, the populator, the validator, `execute`, the completion
    parser and `printHelp`.
  - The parser, the populator and the validator may throw an exception of any class the catch
    clauses name, because those clauses tell them apart only by class. `execute` is taken to
    throw none of the named classes, which are checked exceptions that `Command.execute` does not
    declare. Its outcome (`ExecuteOutcome`) is therefore a result or an unclassified exception.
    `Command.java` is not part of this model.
- `AeshConsole`: the console's state and operations.
  - The specification functions `GetCommand`, `CandidateNames`, `RunStages`, `Recover`,
    `Dispatch` and `CompletionFor` each say what one call does. They give the result and the
    events the call causes. `DispatchLine` is the lookup of a non-blank line and
    `DispatchInContainer` the try-with-resources block around a found container. `Swallow` is the
    completion handler's catch clauses.
  - Events are lookups, container opening and closing, validation, execution, printed text,
    not-found handler calls, process detaching and console stopping.
  - The class `AeshConsoleImpl` holds the selected invocation provider and a ghost trace of those
    events. Its methods are proved against the specification functions.
  - `CompleteOperation` holds the candidate list that completion appends to in place.
- `ConsoleProperties`: the lemmas that state what the core promises about those functions.

## Model

| member | source | states |
|---|---|---|
| ParsedLineWords.LastWord | aesh/src/main/java/org/aesh/parser/ParsedLineWords.java:7-9 | the last word is the element at index size-1 of a non-empty list, and it is one of the list's words |
| ParsedLineWords.FirstWord | aesh/src/main/java/org/aesh/parser/ParsedLineWords.java:11-16 | a non-empty list yields its element at index 0; an empty list yields a word with empty text at index 0 |
| ParsedLineWords.SingletonFirstIsLast | aesh/src/main/java/org/aesh/parser/ParsedLineWords.java:7-16 | for a one-word list, the first and last word are both that word |
| ParsedLineWords.FirstWordOfConcat | aesh/src/main/java/org/aesh/parser/ParsedLineWords.java:11-16 | appending words never changes the first word of a non-empty list; behind an empty list, the appended list decides |
| ParsedLineWords.LastWordOfConcat | aesh/src/main/java/org/aesh/parser/ParsedLineWords.java:7-9 | prepending words never changes the last word of a non-empty list |
| Parser.TrimEmptyIffBlank | src/main/java/org/jboss/aesh/console/AeshConsoleImpl.java:281 | `trim()` leaves an empty string exactly when every character of the line is at or below U+0020 |
| Parser.FindFirstWordSpec | src/main/java/org/jboss/aesh/console/AeshConsoleImpl.java:282-284 | the stand-in command name of a line is empty exactly when the line is blank; otherwise it is the first run of non-blank characters after the leading blanks, a non-empty word with no blank character (a fact of the stand-in, not of aesh's `Parser.findFirstWord`) |
| Parser.TextLineHasName | src/main/java/org/jboss/aesh/console/AeshConsoleImpl.java:281-284 | a line that passes the trim test has a non-empty, blank-free command name under the stand-in for `Parser.findFirstWord` |
| Parser.LeadingBlanks | src/main/java/org/jboss/aesh/console/AeshConsoleImpl.java:281 | the leading scan of `String.trim`: the number of leading characters at or below U+0020, every one of them blank, and the character after them, if any, is not |
| Parser.KeptEnd | src/main/java/org/jboss/aesh/console/AeshConsoleImpl.java:281 | the trailing scan of `String.trim`: where the kept text ends, never before its start; every character from there on is blank, and the kept text's last character is not |
| Parser.Trim | src/main/java/org/jboss/aesh/console/AeshConsoleImpl.java:281 | `trim()` drops exactly the leading and trailing characters at or below U+0020: the result is the slice of the line that follows its leading blanks, only blanks come before and after it, and it starts and ends with a character above U+0020 unless it is empty |
| AeshConsole.MatchingNames | src/main/java/org/jboss/aesh/console/AeshConsoleImpl.java:186-193 | a name is kept exactly when it is in the list and starts with the input; every kept name occurs as often as in the list |
| AeshConsole.GetCommand | src/main/java/org/jboss/aesh/console/AeshConsoleImpl.java:215-227 | the registry's container whenever the registry has the name; otherwise the internal registry's when there is one and it has the name; the lookup throws exactly when neither has it, and then throws the not-found exception for that name |
| AeshConsole.CandidateNames | src/main/java/org/jboss/aesh/console/AeshConsoleImpl.java:183-201 | the registry's names that start with the input, in order, followed by the internal registry's when there is one; `CandidateNamesSpec` and `CandidateNamesOrder` state its properties |
| AeshConsole.ExitCode | src/main/java/org/jboss/aesh/console/AeshConsoleImpl.java:352-355 | the exit code is 0 exactly for SUCCESS, and it is always 0 or 1 |
| AeshConsole.Recover | src/main/java/org/jboss/aesh/console/AeshConsoleImpl.java:312-342 | the events each catch clause of `readConsoleOutput` leaves, by exception class; `RecoverEvents` states its properties |
| AeshConsole.Validates | src/main/java/org/jboss/aesh/console/AeshConsoleImpl.java:296-298 | the validator runs when the command has one and no option overrides the required ones |
| AeshConsole.RunStages | src/main/java/org/jboss/aesh/console/AeshConsoleImpl.java:286-311 | parse, populate, validate when due, execute, the first stage that throws ending the run; `RunStagesSpec` states its properties |
| AeshConsole.Dispatch | src/main/java/org/jboss/aesh/console/AeshConsoleImpl.java:279-356 | one call of `readConsoleOutput`: a null operation stops the console, a blank line fails, any other line is dispatched; the exit code is derived from its result |
| AeshConsole.DispatchLine | src/main/java/org/jboss/aesh/console/AeshConsoleImpl.java:282-342 | a non-blank line is looked up by its first word; a failed lookup goes to the catch clause, a found container to the try-with-resources block |
| AeshConsole.DispatchInContainer | src/main/java/org/jboss/aesh/console/AeshConsoleImpl.java:282-342 | the container is opened, the stages run, the container is closed, and only then the catch clause runs for what the stages threw |
| AeshConsole.Swallow | src/main/java/org/jboss/aesh/console/AeshConsoleImpl.java:254-264 | completion's catch clauses leave nothing, except one call of the not-found handler with the buffer, made exactly for a command-not-found exception when a handler is installed |
| AeshConsole.CompletionFor | src/main/java/org/jboss/aesh/console/AeshConsoleImpl.java:236-266 | one completion request: the matching command names when there are any; otherwise the lookup, the container opened and closed around the completion parser, and the handler call for what was swallowed |
| AeshConsole.CompleteOperation.constructor | src/main/java/org/jboss/aesh/console/AeshConsoleImpl.java:236-238 | a completion request carries the buffer and the cursor and starts with no candidates |
| AeshConsole.CompleteOperation.AddCompletionCandidates | src/main/java/org/jboss/aesh/console/AeshConsoleImpl.java:240 | the names are appended behind the candidates already collected |
| AeshConsole.AeshConsoleImpl.constructor | src/main/java/org/jboss/aesh/console/AeshConsoleImpl.java:61 | a new console selects the default invocation provider |
| AeshConsole.AeshConsoleImpl.SetCurrentCommandInvocationProvider | src/main/java/org/jboss/aesh/console/AeshConsoleImpl.java:145-147 | the named provider becomes the selected one |
| AeshConsole.AeshConsoleImpl.GetHelpInfo | src/main/java/org/jboss/aesh/console/AeshConsoleImpl.java:133-142 | a command of the registry yields its parser's help text; any other name yields "" |
| AeshConsole.AeshConsoleImpl.CompleteCommandName | src/main/java/org/jboss/aesh/console/AeshConsoleImpl.java:183-201 | the two loops collect exactly the candidate names: the registry's matching names in order, then the internal registry's when there is one |
| AeshConsole.AeshConsoleImpl.Complete | src/main/java/org/jboss/aesh/console/AeshConsoleImpl.java:236-266 | the operation's candidates grow by exactly what one completion request offers, and the trace grows by exactly its events |
| AeshConsole.AeshConsoleImpl.RunContainer | src/main/java/org/jboss/aesh/console/AeshConsoleImpl.java:286-311 | the try block's stages with the selected provider give the staged outcome and the staged events |
| AeshConsole.AeshConsoleImpl.CatchFault | src/main/java/org/jboss/aesh/console/AeshConsoleImpl.java:312-342 | the catch clause for an exception appends exactly the recovery events for its class |
| AeshConsole.AeshConsoleImpl.ReadConsoleOutput | src/main/java/org/jboss/aesh/console/AeshConsoleImpl.java:279-356 | the exit code is that of the dispatched result for the selected provider, and the trace grows by exactly the dispatch's events |
| AeshConsole.AeshConsoleImpl.DispatchText | src/main/java/org/jboss/aesh/console/AeshConsoleImpl.java:281-342 | for a non-blank line, the result is that of the dispatched line for the selected provider, and the trace grows by exactly its events |
| AeshConsole.AeshConsoleImpl.HoldContainer | src/main/java/org/jboss/aesh/console/AeshConsoleImpl.java:282-342 | for a found container, the result is that of the try-with-resources block with the selected provider and the line's control operator, and the trace grows by exactly its events |
| ConsoleProperties.GetCommandOrder | src/main/java/org/jboss/aesh/console/AeshConsoleImpl.java:215-227 | for a name the registry has, the internal registry makes no difference: whatever it holds, the registry's container is found |
| ConsoleProperties.HelpInfoIgnoresInternalRegistry | src/main/java/org/jboss/aesh/console/AeshConsoleImpl.java:133-142 | a command only the internal registry has is found by the lookup, yet its help text is "" |
| ConsoleProperties.MatchingNamesConcat | src/main/java/org/jboss/aesh/console/AeshConsoleImpl.java:186-193 | matching two name lists one after the other matches each in turn, keeping order |
| ConsoleProperties.MatchingOneName | src/main/java/org/jboss/aesh/console/AeshConsoleImpl.java:187-188 | a single name is kept exactly when the input is a prefix of it |
| ConsoleProperties.CandidateNamesSpec | src/main/java/org/jboss/aesh/console/AeshConsoleImpl.java:183-201 | a name is a candidate exactly when it starts with the input and either registry lists it; duplicates across the registries are kept |
| ConsoleProperties.CandidateNamesOrder | src/main/java/org/jboss/aesh/console/AeshConsoleImpl.java:183-201 | the candidates are the matches of the registry's names followed by the internal registry's |
| ConsoleProperties.NameCompletionTakesPrecedence | src/main/java/org/jboss/aesh/console/AeshConsoleImpl.java:237-240 | when a name matches, all matching names are offered and nothing else happens |
| ConsoleProperties.ArgumentCompletionOnlyWithoutNames | src/main/java/org/jboss/aesh/console/AeshConsoleImpl.java:237-244 | a lookup (and so argument completion) happens exactly when no name matches, and then for the buffer's first word |
| ConsoleProperties.RegisteredNameIsOffered | src/main/java/org/jboss/aesh/console/AeshConsoleImpl.java:186-193 | every name of either registry that starts with the buffer is among the offered candidates |
| ConsoleProperties.FailedCompletionAddsNothing | src/main/java/org/jboss/aesh/console/AeshConsoleImpl.java:242-264 | a completion whose lookup or target search throws adds no candidates; for an unknown command, only the handler call follows the lookup, and only when a handler exists |
| ConsoleProperties.CompletionCallsHandlerOnlyForUnknown | src/main/java/org/jboss/aesh/console/AeshConsoleImpl.java:242-264 | the not-found handler is called during completion only when installed, and only with the buffer; it is called exactly when no name matched and the lookup, the target search or the completion parser threw a command-not-found exception |
| ConsoleProperties.CompletionNeverSurfacesFailure | src/main/java/org/jboss/aesh/console/AeshConsoleImpl.java:254-264 | completion never prints, detaches a process or stops the console, whatever throws |
| ConsoleProperties.CompletionOfFoundCommand | src/main/java/org/jboss/aesh/console/AeshConsoleImpl.java:242-264 | for a found command, completion looks it up, opens and closes its container, and afterwards makes at most one call, of the handler |
| ConsoleProperties.CompletionReleasesOnce | src/main/java/org/jboss/aesh/console/AeshConsoleImpl.java:242-253 | completion opens and closes a container once each when the command is found, otherwise neither |
| ConsoleProperties.RunStagesSpec | src/main/java/org/jboss/aesh/console/AeshConsoleImpl.java:286-311 | the validator runs exactly when parse and populate succeed and validation is due; execute runs exactly when every earlier stage succeeded; a result comes only from execute, with the given invocation |
| ConsoleProperties.StagesEachOnce | src/main/java/org/jboss/aesh/console/AeshConsoleImpl.java:294-311 | the stages validate at most once and execute at most once: each count is 1 exactly when that stage ran, else 0 |
| ConsoleProperties.StagesRunAtMostOnce | src/main/java/org/jboss/aesh/console/AeshConsoleImpl.java:282-342 | for any submitted line, the validator runs at most once and execute runs at most once |
| ConsoleProperties.ExecuteOnceIffStagesPass | src/main/java/org/jboss/aesh/console/AeshConsoleImpl.java:286-311 | for a found command, execute runs exactly once when parsing and populating went through and the validator, if due, accepted the command, and never otherwise |
| ConsoleProperties.AbsentLineStopsConsole | src/main/java/org/jboss/aesh/console/AeshConsoleImpl.java:347-350 | a null operation stops the console and exits with 1 |
| ConsoleProperties.BlankLineFailsWithoutLookup | src/main/java/org/jboss/aesh/console/AeshConsoleImpl.java:344-346 | a blank line fails with no lookup and no other effect |
| ConsoleProperties.NonBlankLineIsLookedUp | src/main/java/org/jboss/aesh/console/AeshConsoleImpl.java:281-284 | a line that passes the trim test starts with a lookup of its command name, which is non-empty under the stand-in for `Parser.findFirstWord` |
| ConsoleProperties.ExitCodeZeroIffCommandSucceeded | src/main/java/org/jboss/aesh/console/AeshConsoleImpl.java:352-355 | the exit code is 0 exactly when the line had a found command that ran through every stage and returned SUCCESS |
| ConsoleProperties.RecoverEvents | src/main/java/org/jboss/aesh/console/AeshConsoleImpl.java:312-342 | every catch clause does something visible, only printing, calling the handler or detaching; it detaches exactly for an unclassified exception |
| ConsoleProperties.DispatchOfFoundCommand | src/main/java/org/jboss/aesh/console/AeshConsoleImpl.java:282-342 | for a found command, the dispatch is lookup, open, stages, close, then the catch clause; the result is execute's or FAILURE |
| ConsoleProperties.OverrideSkipsValidator | src/main/java/org/jboss/aesh/console/AeshConsoleImpl.java:294-311 | with an overriding option, the validator never runs and execute does |
| ConsoleProperties.RejectedCommandNeverExecutes | src/main/java/org/jboss/aesh/console/AeshConsoleImpl.java:296-332 | a validator rejection gives exactly lookup, open, validate, close and the printed message, never execute, and FAILURE |
| ConsoleProperties.RejectedHeld | src/main/java/org/jboss/aesh/console/AeshConsoleImpl.java:296-332 | inside the opened container, a validator rejection gives exactly open, validate, close and the printed message, and FAILURE |
| ConsoleProperties.ClassifiedFaultPrintsMessage | src/main/java/org/jboss/aesh/console/AeshConsoleImpl.java:312-332 | a parse, option-validator or command-validator exception from any stage gives exactly lookup, open, the stages run, close and the exception's message with the line separator; execute never runs and the line fails |
| ConsoleProperties.PopulateFaultNeverExecutes | src/main/java/org/jboss/aesh/console/AeshConsoleImpl.java:289-329 | an option-validator exception from populating gives exactly lookup, open, close and the printed message, and FAILURE |
| ConsoleProperties.ParseFaultNeverExecutes | src/main/java/org/jboss/aesh/console/AeshConsoleImpl.java:286-314 | a parser exception gives exactly lookup, open, close and the printed message, and FAILURE |
| ConsoleProperties.DispatchOfFoundCommandIsHeld | src/main/java/org/jboss/aesh/console/AeshConsoleImpl.java:281-311 | a non-blank line whose command is found is its lookup followed by the try-with-resources block, with that block's result |
| ConsoleProperties.DispatchOfUnknownCommand | src/main/java/org/jboss/aesh/console/AeshConsoleImpl.java:281-326 | a non-blank line whose command is not found is its lookup followed by the catch clause for the lookup's exception, and fails |
| ConsoleProperties.HeldContainer | src/main/java/org/jboss/aesh/console/AeshConsoleImpl.java:282-342 | the try-with-resources block is open, the stages, close, then the catch clause for what they threw, which only prints, calls the handler or detaches; the result is execute's or FAILURE |
| ConsoleProperties.UnknownCommandReported | src/main/java/org/jboss/aesh/console/AeshConsoleImpl.java:315-326 | an unknown command prints exactly "Command not found: ", the name and the line separator, or calls the handler when one is installed, and fails |
| ConsoleProperties.UnclassifiedFaultDetaches | src/main/java/org/jboss/aesh/console/AeshConsoleImpl.java:333-342 | a process is detached exactly when a found command's stage threw an unclassified exception, and the line then fails |
| ConsoleProperties.FoundCommandDetaches | src/main/java/org/jboss/aesh/console/AeshConsoleImpl.java:302-342 | for a found command, a process is detached exactly when a stage threw an exception of no named class, and the line then fails |
| ConsoleProperties.ExecuteUsesSelectedProvider | src/main/java/org/jboss/aesh/console/AeshConsoleImpl.java:302-311 | every execute runs with the selected provider and the line's control operator |
| ConsoleProperties.FoundCommandUsesSelectedProvider | src/main/java/org/jboss/aesh/console/AeshConsoleImpl.java:302-311 | for a found command, every execute runs with the selected provider and the line's control operator |
| ConsoleProperties.ContainerReleasedExactlyOnce | src/main/java/org/jboss/aesh/console/AeshConsoleImpl.java:282-342 | a found command's container is opened once and closed once on every path, otherwise neither; validation and execution happen only while it is open |
| ConsoleProperties.ReleasedOnceAround | src/main/java/org/jboss/aesh/console/AeshConsoleImpl.java:282-342 | around one opened container, opening and closing each occur once, and validate and execute lie strictly between them |

## Left out

- Terminal I/O: `start`, `stop`, `clear`, `setPrompt`, `getShell` and `attachConsoleCommand` are left out. Printed text, stopping and detaching appear only as events in the trace.
- Logging through `java.util.logging`, and `printStackTrace` in `getHelpInfo`: they have no observable contract here.
- `processSettings` and the construction of the `Man` command: this is setup wiring. Whether the internal registry exists is a given of `Wiring`.
- The parser, the populator, the validators and the completion parser: only the outcome each produces for its input is modelled. This includes how `injectValuesAndComplete` appends candidates and what it throws.
- `Parser.findFirstWord` is not part of this model. It is stood in for by the first word, where words are separated by any character at or below U+0020, control characters included.
- `CommandInvocationServices.DEFAULT_PROVIDER_NAME` is not part of this model, so its value in `DefaultProviderName` is a placeholder.
- Provider internals and `enhanceCommandInvocation` are left out. An invocation records only the selected provider name and the control operator.
- `getCommandInvocationProvider(...).enhanceCommandInvocation(...)` (`AeshConsoleImpl.java` lines 305-308) is taken never to throw. The model records `Executed` as soon as the stages reach `execute`, before those calls.
- `getParser().getCompletionParser()` (`AeshConsoleImpl.java` lines 245-246) is taken never to throw.
- `getAllCommandNames` is taken never to throw: a registry's names are a sequence. The `catch (Exception)` of `completeCommandName` (line 195) therefore never runs in the model.
- A `java.lang.Error` escapes the `catch (Exception)` clauses at lines 195, 260 and 333 of `AeshConsoleImpl.java`. The model has no exception outside those clauses, so this escape is not modelled.
- `GetHelpInfo` opens and closes the container it looks up. That opening and closing is not recorded in the trace.
- `CommandContainer.close` is taken never to fail.
- A registry that returns a null container, or that throws anything other than `CommandNotFoundException`, is not modelled.
- The line argument that the primary lookup passes on to the registry is not modelled.
- The not-found handler is taken to return normally.
- ParsedLineWords.LastWord: an empty list is an out-of-bounds exception in the source and a precondition here.
- Mutation of the words list passed to `firstWord` and `lastWord` is not modelled. Both take a value sequence, so neither can change it.
- `executeCommand`, the provider registration methods and the other console accessors are not part of this core.
