/** The collaborators the dispatcher and the completion handler drive, reduced to the outcome each
    call produces: the registries, the command container, its parser, populator, validator and
    completion parser, and the command itself. */
module Collaborators {

  datatype Option<T> = None | Some(value: T)

  /** The exception classes the catch clauses of the console tell apart. */
  datatype Exception =
    | CommandLineParserException(message: string)
      /** raised by a registry that has no command of that name */
    | CommandNotFoundException(name: string)
    | OptionValidatorException(message: string)
    | CommandValidatorException(message: string)
      /** any other `Exception`: an `IOException` or `InterruptedException` from `execute`, a
          `RuntimeException` from any stage */
    | OtherException(message: string)

  /** What a call into a collaborator does: it returns a value or it throws. */
  datatype Outcome<T> = Returns(value: T) | Throws(exception: Exception)

  /** The result a command reports from `execute`. */
  datatype CommandResult = SUCCESS | FAILURE

  /** What `execute` can do: the parser and validator exceptions are checked ones that
      `Command.execute` is taken not to declare, so a failing `execute` throws none of the
      classes the dispatcher tells apart. */
  type ExecuteOutcome = o: Outcome<CommandResult> | o.Returns? || o.exception.OtherException?
    witness Returns(SUCCESS)

  /** The control operator of a submitted line (pipe, redirection, background, ...); the console
      only passes it on to the command invocation. */
  type ControlOperator = string

  /** A parsed command line: option values, arguments, and whether one of the options given
      overrides the command's required options. */
  datatype CommandLine = CommandLine(
    options: map<string, seq<string>>,
    arguments: seq<string>,
    hasOptionWithOverrideRequired: bool)

  /** The invocation handed to `execute`: the command invocation built from the line's control
      operator and enhanced by the invocation provider of the given name. */
  datatype Invocation = Invocation(provider: string, controlOperator: ControlOperator)

  /** What the completion parser finds at the cursor: the option (or argument) being completed
      and the value typed so far. */
  datatype CompleteObject = CompleteObject(name: string, value: string)

  /** What `injectValuesAndComplete` does to a completion operation: the candidates it appends,
      and the exception it ends with, if any (candidates appended before it stay). */
  datatype Completion = Completion(added: seq<string>, thrown: Option<Exception>)

  /** A command container: one command instance with its parser, for one dispatch or one
      completion. Each stage is the outcome its collaborator produces. */
  datatype Container = Container(
    name: string,
    /** the command line parser: `parse(line)` */
    parse: string -> Outcome<CommandLine>,
    /** the command populator, run in validation mode: `None` when it returns normally */
    populate: CommandLine -> Option<Exception>,
    /** the command's validator, if it has one, against the populated command */
    validator: Option<CommandLine -> Option<Exception>>,
    /** the populated command's `execute` */
    execute: (CommandLine, Invocation) -> ExecuteOutcome,
    /** the parser's `printHelp()` */
    help: string,
    /** the completion parser's `findCompleteObject(buffer, cursor)` */
    findCompleteObject: (string, int) -> Outcome<CompleteObject>,
    /** the completion parser's `injectValuesAndComplete` */
    injectValuesAndComplete: CompleteObject -> Completion)

  /** A command registry: its command names in the order `getAllCommandNames` lists them, and the
      container `getCommand` yields for a name. */
  datatype Registry = Registry(names: seq<string>, commands: map<string, Container>)
}
