/** The console core: the two-tier command lookup, command-name completion, the completion handler
    (`AeshCompletion.complete`) and the dispatcher (`AeshConsoleCallback.readConsoleOutput`).
    The specification functions say what one call does; the class `AeshConsoleImpl` carries the
    console's state and its methods are proved against those functions. */
module AeshConsole {
  import opened Collaborators
  import opened Parser

  /** The name `CommandInvocationServices.DEFAULT_PROVIDER_NAME` stands for. */
  const DefaultProviderName: string := "AESH_DEFAULT_PROVIDER"

  /** The final fields of the console that the core reads. */
  datatype Wiring = Wiring(
    registry: Registry,
    /** present only when the man command is enabled */
    internalRegistry: Option<Registry>,
    hasNotFoundHandler: bool,
    /** the platform line separator, which `println` and `Config.getLineSeparator()` both use */
    lineSeparator: string)

  /** A submitted line with its control operator. */
  datatype ConsoleOperation = ConsoleOperation(controlOperator: ControlOperator, buffer: string)

  /** What a call asks of the world around the core, in order. */
  datatype Event =
    | LookedUp(name: string)           // the registry chain is asked for a command
    | Acquired(container: string)      // try-with-resources opens the container
    | Released(container: string)      // ... and closes it
    | Validated                        // the command's validator runs
    | Executed(invocation: Invocation) // the command's `execute` runs
    | Printed(text: string)            // text written to the shell's output
    | NotFoundHandled(line: string)    // the command-not-found handler is called
    | ProcessDetached                  // `detachProcess()`
    | ConsoleStopped                   // `stop()`

  /** The outcome of one submitted line: the command result and what was done on the way. */
  datatype Dispatched = Dispatched(result: CommandResult, events: seq<Event>)

  /** The outcome of one completion request: the candidates appended and what was done. */
  datatype Completed = Completed(candidates: seq<string>, events: seq<Event>)

  /** The outcome of the stages run inside the try block once the container is open. */
  datatype Staged = Staged(outcome: Outcome<CommandResult>, events: seq<Event>)

  /** Look the name up in the registry; when it has no such command, fall back on the internal
      registry, if there is one and it knows the name; otherwise the registry's exception. */
  function GetCommand(registry: Registry, internal: Option<Registry>, name: string): (found: Outcome<Container>)
    ensures name in registry.commands ==> found == Returns(registry.commands[name])
    ensures name !in registry.commands && internal.Some? && name in internal.value.commands ==>
      found == Returns(internal.value.commands[name])
    ensures found.Throws? <==> name !in registry.commands && (internal.None? || name !in internal.value.commands)
    ensures found.Throws? ==> found.exception == CommandNotFoundException(name)
  {
    if name in registry.commands then Returns(registry.commands[name])
    else if internal.Some? && name in internal.value.commands then Returns(internal.value.commands[name])
    else Throws(CommandNotFoundException(name))
  }

  /** The names of `names` that start with `input`, in order, duplicates kept. */
  function MatchingNames(names: seq<string>, input: string): (matched: seq<string>)
    ensures forall n :: n in matched <==> n in names && input <= n
    ensures forall n :: multiset(matched)[n] == if input <= n then multiset(names)[n] else 0
  {
    if names == [] then []
    else
      var last := names[|names| - 1];
      var init := names[..|names| - 1];
      assert names == init + [last];
      MatchingNames(init, input) + if input <= last then [last] else []
  }

  /** The command names `completeCommandName` collects: the registry's first, then the internal
      registry's when there is one. */
  function CandidateNames(w: Wiring, input: string): seq<string>
  {
    MatchingNames(w.registry.names, input)
      + if w.internalRegistry.Some? then MatchingNames(w.internalRegistry.value.names, input) else []
  }

  /** The console's exit code for a command result. */
  function ExitCode(result: CommandResult): (code: int)
    ensures code == 0 <==> result == SUCCESS
    ensures code == 0 || code == 1
  {
    if result == SUCCESS then 0 else 1
  }

  /** What the dispatcher's catch clauses do with an exception; every one of them ends in FAILURE.
      `RecoverEvents` says what each clause leaves. */
  function Recover(w: Wiring, buffer: string, e: Exception): seq<Event>
  {
    match e
    case CommandLineParserException(message) => [Printed(message + w.lineSeparator)]
    case CommandNotFoundException(_) =>
      if w.hasNotFoundHandler then [NotFoundHandled(buffer)]
      else [Printed("Command not found: " + FindFirstWord(buffer) + w.lineSeparator)]
    case OptionValidatorException(message) => [Printed(message + w.lineSeparator)]
    case CommandValidatorException(message) => [Printed(message + w.lineSeparator)]
    case OtherException(message) =>
      [Printed("Exception when parsing/running: " + buffer + ", " + message + w.lineSeparator),
       ProcessDetached]
  }

  /** Whether the validator runs for this container and command line. */
  predicate Validates(c: Container, commandLine: CommandLine) {
    c.validator.Some? && !commandLine.hasOptionWithOverrideRequired
  }

  /** Parse, populate, validate when due, execute: the first stage that throws ends the run. */
  function RunStages(c: Container, buffer: string, invocation: Invocation): Staged
  {
    match c.parse(buffer)
    case Throws(e) => Staged(Throws(e), [])
    case Returns(commandLine) =>
      match c.populate(commandLine)
      case Some(e) => Staged(Throws(e), [])
      case None =>
        if Validates(c, commandLine) && c.validator.value(commandLine).Some? then
          Staged(Throws(c.validator.value(commandLine).value), [Validated])
        else
          var checked := if Validates(c, commandLine) then [Validated] else [];
          Staged(c.execute(commandLine, invocation), checked + [Executed(invocation)])
  }

  /** One submitted line, as `readConsoleOutput` handles it with `provider` selected. */
  function Dispatch(w: Wiring, provider: string, output: Option<ConsoleOperation>): Dispatched
  {
    match output
    case None => Dispatched(FAILURE, [ConsoleStopped])
    case Some(op) =>
      if |Trim(op.buffer)| == 0 then Dispatched(FAILURE, [])
      else DispatchLine(w, provider, op)
  }

  /** A line that is not blank: look its first word up, then run the command's container. */
  function DispatchLine(w: Wiring, provider: string, op: ConsoleOperation): Dispatched
  {
    var name := FindFirstWord(op.buffer);
    match GetCommand(w.registry, w.internalRegistry, name)
    case Throws(e) => Dispatched(FAILURE, [LookedUp(name)] + Recover(w, op.buffer, e))
    case Returns(c) =>
      var held := DispatchInContainer(w, c, op.buffer, Invocation(provider, op.controlOperator));
      Dispatched(held.result, [LookedUp(name)] + held.events)
  }

  /** The try-with-resources block for a found container: open it, run the stages, close it,
      and only then run the catch clause for what the stages threw. */
  function DispatchInContainer(w: Wiring, c: Container, buffer: string, invocation: Invocation): Dispatched
  {
    var run := RunStages(c, buffer, invocation);
    var held := [Acquired(c.name)] + run.events + [Released(c.name)];
    match run.outcome
    case Returns(result) => Dispatched(result, held)
    case Throws(e) => Dispatched(FAILURE, held + Recover(w, buffer, e))
  }

  /** What the completion handler's catch clauses do: only a command-not-found exception, and only
      when there is a handler, leaves a trace. */
  function Swallow(w: Wiring, buffer: string, e: Exception): (events: seq<Event>)
    ensures events == [] || events == [NotFoundHandled(buffer)]
    ensures events != [] <==> e.CommandNotFoundException? && w.hasNotFoundHandler
  {
    if e.CommandNotFoundException? && w.hasNotFoundHandler then [NotFoundHandled(buffer)] else []
  }

  /** One completion request, as `AeshCompletion.complete` handles it. */
  function CompletionFor(w: Wiring, buffer: string, cursor: int): Completed
  {
    var names := CandidateNames(w, buffer);
    if |names| > 0 then Completed(names, [])
    else
      var name := FindFirstWord(buffer);
      match GetCommand(w.registry, w.internalRegistry, name)
      case Throws(e) => Completed([], [LookedUp(name)] + Swallow(w, buffer, e))
      case Returns(c) =>
        var held := [LookedUp(name), Acquired(c.name), Released(c.name)];
        match c.findCompleteObject(buffer, cursor)
        case Throws(e) => Completed([], held + Swallow(w, buffer, e))
        case Returns(completeObject) =>
          var completion := c.injectValuesAndComplete(completeObject);
          Completed(completion.added,
                    held + if completion.thrown.Some? then Swallow(w, buffer, completion.thrown.value) else [])
  }

  /** A completion request: the buffer, the cursor, and the candidates collected so far. */
  class CompleteOperation {
    const buffer: string
    const cursor: int
    var candidates: seq<string>

    constructor (buffer: string, cursor: int)
      ensures this.buffer == buffer && this.cursor == cursor && candidates == []
    {
      this.buffer := buffer;
      this.cursor := cursor;
      candidates := [];
    }

    method AddCompletionCandidates(names: seq<string>)
      modifies this`candidates
      ensures candidates == old(candidates) + names
    {
      candidates := candidates + names;
    }
  }

  class AeshConsoleImpl {
    const wiring: Wiring
    /** the name of the invocation provider `execute` gets its invocation enhanced by */
    var commandInvocationProvider: string
    /** every event that dispatching lines and completing buffers have produced, oldest first;
        `GetHelpInfo` adds nothing to it */
    ghost var trace: seq<Event>

    constructor (wiring: Wiring)
      ensures this.wiring == wiring
      ensures commandInvocationProvider == DefaultProviderName && trace == []
    {
      this.wiring := wiring;
      commandInvocationProvider := DefaultProviderName;
      trace := [];
    }

    method SetCurrentCommandInvocationProvider(name: string)
      modifies this`commandInvocationProvider
      ensures commandInvocationProvider == name
    {
      commandInvocationProvider := name;
    }

    /** The help text of a command of the registry, or "" when the registry has none by that
        name; the internal registry is not asked. */
    function GetHelpInfo(commandName: string): (help: string)
      ensures commandName in wiring.registry.commands ==> help == wiring.registry.commands[commandName].help
      ensures commandName !in wiring.registry.commands ==> help == ""
    {
      match GetCommand(wiring.registry, None, commandName)
      case Returns(c) => c.help
      case Throws(_) => ""
    }

    /** The command names that start with `input`: the registry's, then the internal registry's. */
    method CompleteCommandName(input: string) returns (matched: seq<string>)
      ensures matched == CandidateNames(wiring, input)
    {
      matched := [];
      var names := wiring.registry.names;
      for i := 0 to |names|
        invariant matched == MatchingNames(names[..i], input)
      {
        assert names[..i + 1][..i] == names[..i];
        if input <= names[i] {
          matched := matched + [names[i]];
        }
      }
      assert names[..|names|] == names;
      if wiring.internalRegistry.Some? {
        var internalNames := wiring.internalRegistry.value.names;
        ghost var primary := matched;
        for i := 0 to |internalNames|
          invariant matched == primary + MatchingNames(internalNames[..i], input)
        {
          assert internalNames[..i + 1][..i] == internalNames[..i];
          if input <= internalNames[i] {
            matched := matched + [internalNames[i]];
          }
        }
        assert internalNames[..|internalNames|] == internalNames;
      }
    }

    /** `AeshCompletion.complete`: offer the matching command names, or else ask the command's
        completion parser; every failure is swallowed. */
    method Complete(op: CompleteOperation)
      modifies op`candidates, this`trace
      ensures op.candidates == old(op.candidates) + CompletionFor(wiring, op.buffer, op.cursor).candidates
      ensures trace == old(trace) + CompletionFor(wiring, op.buffer, op.cursor).events
    {
      var completedCommands := CompleteCommandName(op.buffer);
      if |completedCommands| > 0 {
        op.AddCompletionCandidates(completedCommands);
      } else {
        var name := FindFirstWord(op.buffer);
        trace := trace + [LookedUp(name)];
        var thrown: Option<Exception> := None;
        match GetCommand(wiring.registry, wiring.internalRegistry, name) {
          case Throws(e) =>
            thrown := Some(e);
          case Returns(container) =>
            trace := trace + [Acquired(container.name)];
            match container.findCompleteObject(op.buffer, op.cursor) {
              case Throws(e) =>
                thrown := Some(e);
              case Returns(completeObject) =>
                var completion := container.injectValuesAndComplete(completeObject);
                op.AddCompletionCandidates(completion.added);
                thrown := completion.thrown;
            }
            trace := trace + [Released(container.name)];
        }
        if thrown.Some? && thrown.value.CommandNotFoundException? && wiring.hasNotFoundHandler {
          trace := trace + [NotFoundHandled(op.buffer)];
        }
      }
    }

    /** The body of the dispatcher's try block once the container is open: parse, populate,
        validate when due, execute with the selected invocation provider. */
    method RunContainer(container: Container, op: ConsoleOperation) returns (outcome: Outcome<CommandResult>)
      modifies this`trace
      ensures var run := RunStages(container, op.buffer, Invocation(commandInvocationProvider, op.controlOperator));
        outcome == run.outcome && trace == old(trace) + run.events
    {
      var parsed := container.parse(op.buffer);
      if parsed.Throws? {
        return Throws(parsed.exception);
      }
      var commandLine := parsed.value;
      var populateFault := container.populate(commandLine);
      if populateFault.Some? {
        return Throws(populateFault.value);
      }
      if container.validator.Some? && !commandLine.hasOptionWithOverrideRequired {
        trace := trace + [Validated];
        var validateFault := container.validator.value(commandLine);
        if validateFault.Some? {
          return Throws(validateFault.value);
        }
      }
      var invocation := Invocation(commandInvocationProvider, op.controlOperator);
      trace := trace + [Executed(invocation)];
      outcome := container.execute(commandLine, invocation);
    }

    /** The dispatcher's catch clauses, run once the container (if any) is closed. */
    method CatchFault(buffer: string, e: Exception)
      modifies this`trace
      ensures trace == old(trace) + Recover(wiring, buffer, e)
    {
      match e {
        case CommandLineParserException(message) =>
          trace := trace + [Printed(message + wiring.lineSeparator)];
        case CommandNotFoundException(_) =>
          if wiring.hasNotFoundHandler {
            trace := trace + [NotFoundHandled(buffer)];
          } else {
            trace := trace + [Printed("Command not found: " + FindFirstWord(buffer) + wiring.lineSeparator)];
          }
        case OptionValidatorException(message) =>
          trace := trace + [Printed(message + wiring.lineSeparator)];
        case CommandValidatorException(message) =>
          trace := trace + [Printed(message + wiring.lineSeparator)];
        case OtherException(message) =>
          trace := trace + [Printed("Exception when parsing/running: " + buffer + ", " + message + wiring.lineSeparator)];
          trace := trace + [ProcessDetached];
      }
    }

    /** The try statement of `readConsoleOutput` for a line that is not blank: look the command
        up, run it inside its container, and run the catch clause for what was thrown. */
    method DispatchText(op: ConsoleOperation) returns (result: CommandResult)
      modifies this`trace
      ensures var d := DispatchLine(wiring, commandInvocationProvider, op);
        result == d.result && trace == old(trace) + d.events
    {
      var name := FindFirstWord(op.buffer);
      trace := trace + [LookedUp(name)];
      match GetCommand(wiring.registry, wiring.internalRegistry, name) {
        case Throws(e) =>
          CatchFault(op.buffer, e);
          result := FAILURE;
        case Returns(container) =>
          result := HoldContainer(container, op);
      }
    }

    /** The try-with-resources block of `readConsoleOutput` once the command is found: open the
        container, run the stages, close it, then run the catch clause for what they threw. */
    method HoldContainer(container: Container, op: ConsoleOperation) returns (result: CommandResult)
      modifies this`trace
      ensures var d := DispatchInContainer(wiring, container, op.buffer, Invocation(commandInvocationProvider, op.controlOperator));
        result == d.result && trace == old(trace) + d.events
    {
      trace := trace + [Acquired(container.name)];
      var outcome := RunContainer(container, op);
      trace := trace + [Released(container.name)];
      match outcome {
        case Returns(r) =>
          result := r;
        case Throws(e) =>
          CatchFault(op.buffer, e);
          result := FAILURE;
      }
    }

    /** `AeshConsoleCallback.readConsoleOutput`: run one submitted line and report 0 for a command
        that succeeded, 1 for anything else. */
    method ReadConsoleOutput(output: Option<ConsoleOperation>) returns (code: int)
      modifies this`trace
      ensures var d := Dispatch(wiring, commandInvocationProvider, output);
        code == ExitCode(d.result) && trace == old(trace) + d.events
    {
      var result := SUCCESS;
      if output.Some? && |Trim(output.value.buffer)| > 0 {
        result := DispatchText(output.value);
      } else if output.Some? {
        result := FAILURE;
      } else {
        trace := trace + [ConsoleStopped];
        result := FAILURE;
      }
      if result == SUCCESS {
        code := 0;
      } else {
        code := 1;
      }
    }
  }
}
