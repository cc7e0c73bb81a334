/** What the console core promises, stated over the specification functions that its methods are
    proved against: the lookup order, the name-completion precedence, the error containment of
    completion, and the stage, exit-code and release guarantees of the dispatcher. */
module ConsoleProperties {
  import opened Collaborators
  import opened Parser
  import opened AeshConsole

  /** A container is opened. */
  predicate IsAcquire(e: Event) {
    e.Acquired?
  }

  /** A container is closed. */
  predicate IsRelease(e: Event) {
    e.Released?
  }

  /** The command's validator runs. */
  predicate IsValidate(e: Event) {
    e.Validated?
  }

  /** The command's `execute` runs. */
  predicate IsExecute(e: Event) {
    e.Executed?
  }

  /** How many events of `events` are of the kind `isKind` picks out. */
  function Count(events: seq<Event>, isKind: Event -> bool): nat
  {
    if events == [] then 0
    else Count(events[..|events| - 1], isKind) + if isKind(events[|events| - 1]) then 1 else 0
  }

  lemma {:induction false} CountConcat(a: seq<Event>, b: seq<Event>, isKind: Event -> bool)
    ensures Count(a + b, isKind) == Count(a, isKind) + Count(b, isKind)
    decreases |b|
  {
    if b == [] {
      assert a + b == a;
    } else {
      assert (a + b)[..|a + b| - 1] == a + b[..|b| - 1];
      CountConcat(a, b[..|b| - 1], isKind);
    }
  }

  lemma {:induction false} CountNone(events: seq<Event>, isKind: Event -> bool)
    requires forall e :: e in events ==> !isKind(e)
    ensures Count(events, isKind) == 0
    decreases |events|
  {
    if events != [] {
      assert events[|events| - 1] in events;
      assert forall e :: e in events[..|events| - 1] ==> e in events;
      CountNone(events[..|events| - 1], isKind);
    }
  }

  // ----- the registry chain ------------------------------------------------------------------

  /** Once the registry has a name, what the internal registry holds makes no difference. */
  lemma GetCommandOrder(registry: Registry, internal: Option<Registry>, other: Option<Registry>, name: string)
    requires name in registry.commands
    ensures GetCommand(registry, internal, name) == GetCommand(registry, other, name)
  {
  }

  /** A command only the internal registry knows is found by the dispatcher and the completion
      handler, yet has no help text: `getHelpInfo` asks the registry alone. */
  lemma HelpInfoIgnoresInternalRegistry(console: AeshConsoleImpl, name: string)
    requires name !in console.wiring.registry.commands
    requires console.wiring.internalRegistry.Some? && name in console.wiring.internalRegistry.value.commands
    ensures GetCommand(console.wiring.registry, console.wiring.internalRegistry, name).Returns?
    ensures console.GetHelpInfo(name) == ""
  {
  }

  // ----- command-name completion -------------------------------------------------------------

  /** Matching keeps the order of the names: matching a concatenation matches each part. */
  lemma {:induction false} MatchingNamesConcat(a: seq<string>, b: seq<string>, input: string)
    ensures MatchingNames(a + b, input) == MatchingNames(a, input) + MatchingNames(b, input)
    decreases |b|
  {
    if b == [] {
      assert a + b == a;
    } else {
      var init := b[..|b| - 1];
      assert a + b == (a + init) + [b[|b| - 1]];
      MatchingNamesConcat(a, init, input);
    }
  }

  /** A single name matches exactly when the input is a prefix of it. */
  lemma MatchingOneName(name: string, input: string)
    ensures MatchingNames([name], input) == if input <= name then [name] else []
  {
    assert [name][..0] == [];
  }

  /** The candidate names are exactly the names of either registry that start with the input;
      each occurs as often as in the two name lists together, so a name both registries list is
      offered twice. */
  lemma CandidateNamesSpec(w: Wiring, input: string, n: string)
    ensures n in CandidateNames(w, input) <==>
      input <= n && (n in w.registry.names || (w.internalRegistry.Some? && n in w.internalRegistry.value.names))
    ensures multiset(CandidateNames(w, input))[n] ==
      if input <= n then
        multiset(w.registry.names)[n] + if w.internalRegistry.Some? then multiset(w.internalRegistry.value.names)[n] else 0
      else 0
  {
  }

  /** The registry's matching names come first, in its order, then the internal registry's. */
  lemma CandidateNamesOrder(w: Wiring, input: string)
    ensures w.internalRegistry.None? ==> CandidateNames(w, input) == MatchingNames(w.registry.names, input)
    ensures w.internalRegistry.Some? ==>
      CandidateNames(w, input) == MatchingNames(w.registry.names + w.internalRegistry.value.names, input)
  {
    if w.internalRegistry.Some? {
      MatchingNamesConcat(w.registry.names, w.internalRegistry.value.names, input);
    } else {
      assert CandidateNames(w, input) == MatchingNames(w.registry.names, input) + [];
    }
  }

  // ----- the completion handler --------------------------------------------------------------

  /** When a command name matches, all matching names are offered and nothing else happens: no
      lookup, no container, no argument completion. */
  lemma NameCompletionTakesPrecedence(w: Wiring, buffer: string, cursor: int)
    requires CandidateNames(w, buffer) != []
    ensures CompletionFor(w, buffer, cursor) == Completed(CandidateNames(w, buffer), [])
  {
  }

  /** The container is looked up, and argument completion can run, only when no name matches. */
  lemma ArgumentCompletionOnlyWithoutNames(w: Wiring, buffer: string, cursor: int)
    ensures CompletionFor(w, buffer, cursor).events != [] <==> CandidateNames(w, buffer) == []
    ensures CandidateNames(w, buffer) == [] ==>
      CompletionFor(w, buffer, cursor).events[0] == LookedUp(FindFirstWord(buffer))
  {
  }

  /** Every name a registry lists that starts with the buffer is offered. */
  lemma RegisteredNameIsOffered(w: Wiring, buffer: string, cursor: int, n: string)
    requires buffer <= n
    requires n in w.registry.names || (w.internalRegistry.Some? && n in w.internalRegistry.value.names)
    ensures n in CompletionFor(w, buffer, cursor).candidates
  {
    CandidateNamesSpec(w, buffer, n);
  }

  /** A completion that fails before the completion parser adds candidates adds none; for an
      unknown command the only trace is the not-found handler's call, made when one is installed. */
  lemma FailedCompletionAddsNothing(w: Wiring, buffer: string, cursor: int)
    requires CandidateNames(w, buffer) == []
    requires var found := GetCommand(w.registry, w.internalRegistry, FindFirstWord(buffer));
      found.Throws? || found.value.findCompleteObject(buffer, cursor).Throws?
    ensures CompletionFor(w, buffer, cursor).candidates == []
    ensures GetCommand(w.registry, w.internalRegistry, FindFirstWord(buffer)).Throws? ==>
      CompletionFor(w, buffer, cursor).events ==
        [LookedUp(FindFirstWord(buffer))] + if w.hasNotFoundHandler then [NotFoundHandled(buffer)] else []
  {
  }

  /** The not-found handler is called during completion only when one is installed, only with
      the buffer, and only for a command-not-found exception. */
  lemma CompletionCallsHandlerOnlyForUnknown(w: Wiring, buffer: string, cursor: int)
    ensures forall e :: e in CompletionFor(w, buffer, cursor).events && e.NotFoundHandled? ==>
      w.hasNotFoundHandler && e == NotFoundHandled(buffer)
    ensures NotFoundHandled(buffer) in CompletionFor(w, buffer, cursor).events <==>
      && w.hasNotFoundHandler
      && CandidateNames(w, buffer) == []
      && var found := GetCommand(w.registry, w.internalRegistry, FindFirstWord(buffer));
      || found.Throws?
      || var target := found.value.findCompleteObject(buffer, cursor);
         || (target.Throws? && target.exception.CommandNotFoundException?)
         || (target.Returns? && var thrown := found.value.injectValuesAndComplete(target.value).thrown;
               thrown.Some? && thrown.value.CommandNotFoundException?)
  {
    var events := CompletionFor(w, buffer, cursor).events;
    if CandidateNames(w, buffer) == [] {
      var name := FindFirstWord(buffer);
      match GetCommand(w.registry, w.internalRegistry, name)
      case Throws(e) =>
        assert events == [LookedUp(name)] + Swallow(w, buffer, e);
        SwallowedAfter(w, buffer, e, [LookedUp(name)]);
      case Returns(c) =>
        var held := [LookedUp(name), Acquired(c.name), Released(c.name)];
        match c.findCompleteObject(buffer, cursor)
        case Throws(e) =>
          assert events == held + Swallow(w, buffer, e);
          SwallowedAfter(w, buffer, e, held);
        case Returns(target) =>
          var thrown := c.injectValuesAndComplete(target).thrown;
          if thrown.Some? {
            assert events == held + Swallow(w, buffer, thrown.value);
            SwallowedAfter(w, buffer, thrown.value, held);
          } else {
            assert events == held;
          }
    }
  }

  /** Proof step for `CompletionCallsHandlerOnlyForUnknown`. The not-found handler's call after
      events that hold none: present exactly when the
      exception is a command-not-found one and a handler is installed. */
  lemma SwallowedAfter(w: Wiring, buffer: string, e: Exception, before: seq<Event>)
    requires forall ev :: ev in before ==> !ev.NotFoundHandled?
    ensures forall ev :: ev in before + Swallow(w, buffer, e) && ev.NotFoundHandled? ==>
      w.hasNotFoundHandler && ev == NotFoundHandled(buffer)
    ensures NotFoundHandled(buffer) in before + Swallow(w, buffer, e) <==>
      e.CommandNotFoundException? && w.hasNotFoundHandler
  {
  }

  /** Completion never surfaces a failure: it prints nothing, never detaches a process and never
      stops the console, whichever collaborator throws. */
  lemma CompletionNeverSurfacesFailure(w: Wiring, buffer: string, cursor: int)
    ensures forall e :: e in CompletionFor(w, buffer, cursor).events ==>
      e.LookedUp? || e.Acquired? || e.Released? || e.NotFoundHandled?
  {
  }

  /** Completion closes the container it opened, once, right after opening it and before any
      failure is handled. */
  lemma CompletionReleasesOnce(w: Wiring, buffer: string, cursor: int)
    ensures var events := CompletionFor(w, buffer, cursor).events;
      var found := CandidateNames(w, buffer) == []
        && GetCommand(w.registry, w.internalRegistry, FindFirstWord(buffer)).Returns?;
      Count(events, IsAcquire) == Count(events, IsRelease) == if found then 1 else 0
  {
    var events := CompletionFor(w, buffer, cursor).events;
    if CandidateNames(w, buffer) != [] {
      assert events == [];
    } else {
      var name := FindFirstWord(buffer);
      match GetCommand(w.registry, w.internalRegistry, name)
      case Throws(e) =>
        CountNone(events, IsAcquire);
        CountNone(events, IsRelease);
      case Returns(c) =>
        var after := CompletionOfFoundCommand(w, buffer, cursor, c);
        ReleasedOnceAround(name, c.name, [], after);
        NothingInside(LookedUp(name), Acquired(c.name), Released(c.name), after);
    }
  }

  /** Proof step for `CompletionReleasesOnce`, sequence algebra only: a container opened and
      closed with nothing in between. */
  lemma NothingInside(first: Event, second: Event, last: Event, after: seq<Event>)
    ensures [first, second] + [] + [last] + after == [first, second, last] + after
  {
    assert [first, second] + [] + [last] == [first, second, last];
  }

  /** For a buffer no command name matches whose command is found, completion opens the
      container, asks its completion parser and closes it; what follows is at most the
      not-found handler's call. */
  lemma CompletionOfFoundCommand(w: Wiring, buffer: string, cursor: int, c: Container) returns (after: seq<Event>)
    requires CandidateNames(w, buffer) == []
    requires GetCommand(w.registry, w.internalRegistry, FindFirstWord(buffer)) == Returns(c)
    ensures CompletionFor(w, buffer, cursor).events
      == [LookedUp(FindFirstWord(buffer)), Acquired(c.name), Released(c.name)] + after
    ensures |after| <= 1 && forall e :: e in after ==> e.NotFoundHandled?
  {
    var events := CompletionFor(w, buffer, cursor).events;
    after := events[3..];
  }

  // ----- the dispatcher: stages --------------------------------------------------------------

  /** The stages run in order and the first that throws ends the run: the validator runs exactly
      when parse and populate went through, there is a validator and no option overrides the
      required ones; `execute` runs exactly when every earlier stage went through; a result is
      returned only from `execute`. */
  lemma RunStagesSpec(c: Container, buffer: string, invocation: Invocation)
    ensures var run := RunStages(c, buffer, invocation);
      var parsed := c.parse(buffer);
      var populated := parsed.Returns? && c.populate(parsed.value).None?;
      && (Validated in run.events <==> populated && Validates(c, parsed.value))
      && (Executed(invocation) in run.events <==>
            populated && (Validates(c, parsed.value) ==> c.validator.value(parsed.value).None?))
      && (run.outcome.Returns? ==>
            Executed(invocation) in run.events && run.outcome == c.execute(parsed.value, invocation))
      && forall e :: e in run.events ==> e == Validated || e == Executed(invocation)
  {
  }

  /** The validator runs at most once and `execute` runs at most once for a submitted line; with
      `RunStagesSpec`, `execute` runs exactly once when every earlier stage went through. */
  lemma StagesRunAtMostOnce(w: Wiring, provider: string, op: ConsoleOperation)
    ensures Count(Dispatch(w, provider, Some(op)).events, IsValidate) <= 1
    ensures Count(Dispatch(w, provider, Some(op)).events, IsExecute) <= 1
  {
    if |Trim(op.buffer)| > 0 {
      var name := FindFirstWord(op.buffer);
      match GetCommand(w.registry, w.internalRegistry, name)
      case Throws(e) =>
        RecoverEvents(w, op.buffer, e);
        DispatchOfUnknownCommand(w, provider, op, e);
        NothingOpened(name, Recover(w, op.buffer, e));
      case Returns(c) =>
        var run, after := DispatchOfFoundCommand(w, provider, op, c);
        StagesEachOnce(c, op.buffer, Invocation(provider, op.controlOperator));
        CountAround(LookedUp(name), Acquired(c.name), run.events, Released(c.name), after, IsValidate);
        CountAround(LookedUp(name), Acquired(c.name), run.events, Released(c.name), after, IsExecute);
    } else {
      assert Dispatch(w, provider, Some(op)).events == [];
    }
  }

  /** For a found command, `execute` runs exactly once when parsing and populating went through
      and the validator, if it ran, accepted the command; otherwise it does not run. */
  lemma ExecuteOnceIffStagesPass(w: Wiring, provider: string, op: ConsoleOperation, c: Container)
    requires |Trim(op.buffer)| > 0
    requires GetCommand(w.registry, w.internalRegistry, FindFirstWord(op.buffer)) == Returns(c)
    ensures var parsed := c.parse(op.buffer);
      var populated := parsed.Returns? && c.populate(parsed.value).None?;
      Count(Dispatch(w, provider, Some(op)).events, IsExecute)
        == if populated && (Validates(c, parsed.value) ==> c.validator.value(parsed.value).None?) then 1 else 0
  {
    var invocation := Invocation(provider, op.controlOperator);
    var run, after := DispatchOfFoundCommand(w, provider, op, c);
    StagesEachOnce(c, op.buffer, invocation);
    RunStagesSpec(c, op.buffer, invocation);
    CountAround(LookedUp(FindFirstWord(op.buffer)), Acquired(c.name), run.events, Released(c.name), after, IsExecute);
  }

  /** The stages validate at most once and execute at most once: once exactly when they do so
      at all. */
  lemma StagesEachOnce(c: Container, buffer: string, invocation: Invocation)
    ensures var events := RunStages(c, buffer, invocation).events;
      Count(events, IsValidate) == if Validated in events then 1 else 0
    ensures var events := RunStages(c, buffer, invocation).events;
      Count(events, IsExecute) == if Executed(invocation) in events then 1 else 0
  {
    var events := RunStages(c, buffer, invocation).events;
    assert events == [] || events == [Validated] || events == [Executed(invocation)]
      || events == [Validated] + [Executed(invocation)];
    CountOne(Validated, IsValidate);
    CountOne(Validated, IsExecute);
    CountOne(Executed(invocation), IsValidate);
    CountOne(Executed(invocation), IsExecute);
    CountConcat([Validated], [Executed(invocation)], IsValidate);
    CountConcat([Validated], [Executed(invocation)], IsExecute);
  }

  /** Proof step for `StagesRunAtMostOnce`: events of a kind that neither the lookup, the opening,
      the closing nor the catch clause is are counted inside the try-with-resources block. */
  lemma CountAround(first: Event, second: Event, inside: seq<Event>, last: Event, after: seq<Event>,
                    isKind: Event -> bool)
    requires !isKind(first) && !isKind(second) && !isKind(last)
    requires forall ev :: ev in after ==> !isKind(ev)
    ensures Count([first, second] + inside + [last] + after, isKind) == Count(inside, isKind)
  {
    CountConcat([first, second] + inside + [last], after, isKind);
    CountConcat([first, second] + inside, [last], isKind);
    CountConcat([first, second], inside, isKind);
    CountNone([first, second], isKind);
    CountNone([last], isKind);
    CountNone(after, isKind);
  }

  /** A line that is absent ends the console session and fails. */
  lemma AbsentLineStopsConsole(w: Wiring, provider: string)
    ensures Dispatch(w, provider, None) == Dispatched(FAILURE, [ConsoleStopped])
    ensures ExitCode(Dispatch(w, provider, None).result) == 1
  {
  }

  /** A blank line fails without a lookup or any other effect. */
  lemma BlankLineFailsWithoutLookup(w: Wiring, provider: string, op: ConsoleOperation)
    requires IsBlank(op.buffer)
    ensures Dispatch(w, provider, Some(op)) == Dispatched(FAILURE, [])
  {
    TrimEmptyIffBlank(op.buffer);
  }

  /** A line that is not blank is looked up under its first word, a non-empty word. */
  lemma NonBlankLineIsLookedUp(w: Wiring, provider: string, op: ConsoleOperation)
    requires |Trim(op.buffer)| > 0
    ensures Dispatch(w, provider, Some(op)).events[0] == LookedUp(FindFirstWord(op.buffer))
    ensures IsToken(FindFirstWord(op.buffer))
  {
    TextLineHasName(op.buffer);
  }

  /** The exit code is 0 exactly when the command itself reported SUCCESS: the line is not blank,
      its command is found, and every stage through `execute` went through with SUCCESS. */
  lemma ExitCodeZeroIffCommandSucceeded(w: Wiring, provider: string, output: Option<ConsoleOperation>)
    ensures ExitCode(Dispatch(w, provider, output).result) == 0 <==>
      && output.Some?
      && |Trim(output.value.buffer)| > 0
      && var found := GetCommand(w.registry, w.internalRegistry, FindFirstWord(output.value.buffer));
      && found.Returns?
      && RunStages(found.value, output.value.buffer, Invocation(provider, output.value.controlOperator)).outcome
           == Returns(SUCCESS)
  {
  }

  /** Every catch clause leaves a trace, made only of output, handler calls and detaching; only the
      clause for an unclassified exception detaches. */
  lemma RecoverEvents(w: Wiring, buffer: string, e: Exception)
    ensures |Recover(w, buffer, e)| > 0
    ensures forall ev :: ev in Recover(w, buffer, e) ==> ev.Printed? || ev.NotFoundHandled? || ev.ProcessDetached?
    ensures ProcessDetached in Recover(w, buffer, e) <==> e.OtherException?
  {
  }

  /** For a line whose command is found, the dispatch is the try-with-resources block around it:
      the lookup, the opening, the stages, the closing, then the catch clause for what the stages
      threw, if they threw. */
  lemma DispatchOfFoundCommand(w: Wiring, provider: string, op: ConsoleOperation, c: Container)
    returns (run: Staged, after: seq<Event>)
    requires |Trim(op.buffer)| > 0
    requires GetCommand(w.registry, w.internalRegistry, FindFirstWord(op.buffer)) == Returns(c)
    ensures run == RunStages(c, op.buffer, Invocation(provider, op.controlOperator))
    ensures after == if run.outcome.Returns? then [] else Recover(w, op.buffer, run.outcome.exception)
    ensures forall ev :: ev in after ==> ev.Printed? || ev.NotFoundHandled? || ev.ProcessDetached?
    ensures Dispatch(w, provider, Some(op)).events
      == [LookedUp(FindFirstWord(op.buffer)), Acquired(c.name)] + run.events + [Released(c.name)] + after
    ensures Dispatch(w, provider, Some(op)).result == if run.outcome.Returns? then run.outcome.value else FAILURE
  {
    var invocation := Invocation(provider, op.controlOperator);
    DispatchOfFoundCommandIsHeld(w, provider, op, c);
    run, after := HeldContainer(w, c, op.buffer, invocation);
    Regroup(LookedUp(FindFirstWord(op.buffer)), Acquired(c.name), run.events, Released(c.name), after);
  }

  /** Proof step for `DispatchOfFoundCommand`, sequence algebra only: prepending one event in
      front of the try-with-resources block. */
  lemma Regroup(first: Event, second: Event, inside: seq<Event>, last: Event, after: seq<Event>)
    ensures [first] + ([second] + inside + [last] + after) == [first, second] + inside + [last] + after
  {
    assert [first] + [second] == [first, second];
  }

  /** Proof step, sequence algebra only: what occurs in the events of a found command's
      dispatch. */
  lemma HeldMembership(first: Event, second: Event, inside: seq<Event>, last: Event, after: seq<Event>, e: Event)
    ensures e in [first, second] + inside + [last] + after <==>
      e == first || e == second || e in inside || e == last || e in after
  {
  }

  /** A line whose command is not found is its lookup followed by the catch clause. */
  lemma DispatchOfUnknownCommand(w: Wiring, provider: string, op: ConsoleOperation, e: Exception)
    requires |Trim(op.buffer)| > 0
    requires GetCommand(w.registry, w.internalRegistry, FindFirstWord(op.buffer)) == Throws(e)
    ensures Dispatch(w, provider, Some(op)) == Dispatched(FAILURE, [LookedUp(FindFirstWord(op.buffer))] + Recover(w, op.buffer, e))
  {
  }

  /** A line whose command is found is its lookup followed by the try-with-resources block. */
  lemma DispatchOfFoundCommandIsHeld(w: Wiring, provider: string, op: ConsoleOperation, c: Container)
    requires |Trim(op.buffer)| > 0
    requires GetCommand(w.registry, w.internalRegistry, FindFirstWord(op.buffer)) == Returns(c)
    ensures var held := DispatchInContainer(w, c, op.buffer, Invocation(provider, op.controlOperator));
      Dispatch(w, provider, Some(op)) == Dispatched(held.result, [LookedUp(FindFirstWord(op.buffer))] + held.events)
  {
  }

  /** The try-with-resources block: the opening, the stages, the closing, then the catch clause
      for what the stages threw, if they threw. */
  lemma HeldContainer(w: Wiring, c: Container, buffer: string, invocation: Invocation)
    returns (run: Staged, after: seq<Event>)
    ensures run == RunStages(c, buffer, invocation)
    ensures after == if run.outcome.Returns? then [] else Recover(w, buffer, run.outcome.exception)
    ensures forall ev :: ev in after ==> ev.Printed? || ev.NotFoundHandled? || ev.ProcessDetached?
    ensures DispatchInContainer(w, c, buffer, invocation).events == [Acquired(c.name)] + run.events + [Released(c.name)] + after
    ensures DispatchInContainer(w, c, buffer, invocation).result == if run.outcome.Returns? then run.outcome.value else FAILURE
  {
    run := RunStages(c, buffer, invocation);
    after := if run.outcome.Returns? then [] else Recover(w, buffer, run.outcome.exception);
    if run.outcome.Throws? {
      RecoverEvents(w, buffer, run.outcome.exception);
    }
  }

  /** The override flag skips the validator even when the command has one. */
  lemma OverrideSkipsValidator(w: Wiring, provider: string, op: ConsoleOperation, c: Container, commandLine: CommandLine)
    requires |Trim(op.buffer)| > 0
    requires GetCommand(w.registry, w.internalRegistry, FindFirstWord(op.buffer)) == Returns(c)
    requires c.parse(op.buffer) == Returns(commandLine) && c.populate(commandLine).None?
    requires commandLine.hasOptionWithOverrideRequired
    ensures Validated !in Dispatch(w, provider, Some(op)).events
    ensures Executed(Invocation(provider, op.controlOperator)) in Dispatch(w, provider, Some(op)).events
  {
    var invocation := Invocation(provider, op.controlOperator);
    var run, after := DispatchOfFoundCommand(w, provider, op, c);
    assert run.events == [Executed(invocation)];
    HeldMembership(LookedUp(FindFirstWord(op.buffer)), Acquired(c.name), run.events, Released(c.name), after, Validated);
    HeldMembership(LookedUp(FindFirstWord(op.buffer)), Acquired(c.name), run.events, Released(c.name), after, Executed(invocation));
  }

  /** A command whose validator rejects it is never executed: its message is printed after the
      container is closed, and the line fails. */
  lemma RejectedCommandNeverExecutes(w: Wiring, provider: string, op: ConsoleOperation, c: Container,
                                     commandLine: CommandLine, message: string)
    requires |Trim(op.buffer)| > 0
    requires GetCommand(w.registry, w.internalRegistry, FindFirstWord(op.buffer)) == Returns(c)
    requires c.parse(op.buffer) == Returns(commandLine) && c.populate(commandLine).None?
    requires Validates(c, commandLine)
    requires c.validator.value(commandLine) == Some(CommandValidatorException(message))
    ensures Dispatch(w, provider, Some(op)) == Dispatched(FAILURE,
      [LookedUp(FindFirstWord(op.buffer)), Acquired(c.name), Validated, Released(c.name),
       Printed(message + w.lineSeparator)])
  {
    RejectedHeld(w, c, op.buffer, Invocation(provider, op.controlOperator), commandLine, message);
    DispatchOfFoundCommandIsHeld(w, provider, op, c);
    Prepended(LookedUp(FindFirstWord(op.buffer)), Acquired(c.name), Validated, Released(c.name),
              Printed(message + w.lineSeparator));
  }

  /** Proof step for `RejectedCommandNeverExecutes`, sequence algebra only: the lookup in front
      of a spelled-out try-with-resources block. */
  lemma Prepended(first: Event, a: Event, b: Event, c: Event, d: Event)
    ensures [first] + [a, b, c, d] == [first, a, b, c, d]
  {
  }

  /** Proof step for `RejectedCommandNeverExecutes`. The try-with-resources block when the
      validator rejects the command: only the validation
      runs inside it, and the message is printed after it. */
  lemma RejectedHeld(w: Wiring, c: Container, buffer: string, invocation: Invocation, commandLine: CommandLine, message: string)
    requires c.parse(buffer) == Returns(commandLine) && c.populate(commandLine).None?
    requires Validates(c, commandLine)
    requires c.validator.value(commandLine) == Some(CommandValidatorException(message))
    ensures DispatchInContainer(w, c, buffer, invocation)
      == Dispatched(FAILURE, [Acquired(c.name), Validated, Released(c.name), Printed(message + w.lineSeparator)])
  {
    assert RunStages(c, buffer, invocation) == Staged(Throws(CommandValidatorException(message)), [Validated]);
  }

  /** A parse error, an option-validator error or a command-validator error, from whichever stage
      threw it, is printed as its message once the container is closed; the command is not
      executed and the line fails. */
  lemma ClassifiedFaultPrintsMessage(w: Wiring, provider: string, op: ConsoleOperation, c: Container)
    requires |Trim(op.buffer)| > 0
    requires GetCommand(w.registry, w.internalRegistry, FindFirstWord(op.buffer)) == Returns(c)
    requires var outcome := RunStages(c, op.buffer, Invocation(provider, op.controlOperator)).outcome;
      && outcome.Throws?
      && (|| outcome.exception.CommandLineParserException?
          || outcome.exception.OptionValidatorException?
          || outcome.exception.CommandValidatorException?)
    ensures var run := RunStages(c, op.buffer, Invocation(provider, op.controlOperator));
      Dispatch(w, provider, Some(op)) == Dispatched(FAILURE,
        [LookedUp(FindFirstWord(op.buffer)), Acquired(c.name)] + run.events
        + [Released(c.name), Printed(run.outcome.exception.message + w.lineSeparator)])
    ensures Executed(Invocation(provider, op.controlOperator)) !in Dispatch(w, provider, Some(op)).events
  {
    var invocation := Invocation(provider, op.controlOperator);
    var run, after := DispatchOfFoundCommand(w, provider, op, c);
    assert after == [Printed(run.outcome.exception.message + w.lineSeparator)];
    Spelled(LookedUp(FindFirstWord(op.buffer)), Acquired(c.name), run.events, Released(c.name), after);
    assert Executed(invocation) !in run.events by {
      RunStagesSpec(c, op.buffer, invocation);
    }
    HeldMembership(LookedUp(FindFirstWord(op.buffer)), Acquired(c.name), run.events, Released(c.name), after, Executed(invocation));
  }

  /** An option-validator error from populating the command (a value that fails conversion or an
      option validator) gives exactly the lookup, the opened and closed container and the printed
      message: nothing is validated or executed, and the line fails. */
  lemma PopulateFaultNeverExecutes(w: Wiring, provider: string, op: ConsoleOperation, c: Container,
                                   commandLine: CommandLine, message: string)
    requires |Trim(op.buffer)| > 0
    requires GetCommand(w.registry, w.internalRegistry, FindFirstWord(op.buffer)) == Returns(c)
    requires c.parse(op.buffer) == Returns(commandLine)
    requires c.populate(commandLine) == Some(OptionValidatorException(message))
    ensures Dispatch(w, provider, Some(op)) == Dispatched(FAILURE,
      [LookedUp(FindFirstWord(op.buffer)), Acquired(c.name), Released(c.name),
       Printed(message + w.lineSeparator)])
  {
    var run, after := DispatchOfFoundCommand(w, provider, op, c);
    assert run.events == [];
    assert after == [Printed(message + w.lineSeparator)];
    Spelled(LookedUp(FindFirstWord(op.buffer)), Acquired(c.name), run.events, Released(c.name), after);
  }

  /** A line whose parser rejects it gives exactly the lookup, the opened and closed container
      and the parser's message: nothing is populated, validated or executed, and the line fails. */
  lemma ParseFaultNeverExecutes(w: Wiring, provider: string, op: ConsoleOperation, c: Container, message: string)
    requires |Trim(op.buffer)| > 0
    requires GetCommand(w.registry, w.internalRegistry, FindFirstWord(op.buffer)) == Returns(c)
    requires c.parse(op.buffer) == Throws(CommandLineParserException(message))
    ensures Dispatch(w, provider, Some(op)) == Dispatched(FAILURE,
      [LookedUp(FindFirstWord(op.buffer)), Acquired(c.name), Released(c.name),
       Printed(message + w.lineSeparator)])
  {
    var run, after := DispatchOfFoundCommand(w, provider, op, c);
    assert run.events == [];
    assert after == [Printed(message + w.lineSeparator)];
    Spelled(LookedUp(FindFirstWord(op.buffer)), Acquired(c.name), run.events, Released(c.name), after);
  }

  /** Proof step, sequence algebra only: the events of a found command's dispatch, spelled out
      for short stages and catch clauses. */
  lemma Spelled(first: Event, second: Event, inside: seq<Event>, last: Event, after: seq<Event>)
    ensures inside == [] && |after| == 1 ==>
      [first, second] + inside + [last] + after == [first, second, last, after[0]]
    ensures |inside| == 1 && |after| == 1 ==>
      [first, second] + inside + [last] + after == [first, second, inside[0], last, after[0]]
    ensures |after| == 1 ==> [first, second] + inside + [last] + after == [first, second] + inside + [last, after[0]]
  {
    if |inside| == 1 {
      assert inside == [inside[0]];
    }
    if |after| == 1 {
      assert after == [after[0]];
    }
  }

  /** An unknown command with no handler installed prints exactly "Command not found: ", the
      command name and a line separator, and fails; with a handler, the handler gets the line. */
  lemma UnknownCommandReported(w: Wiring, provider: string, op: ConsoleOperation)
    requires |Trim(op.buffer)| > 0
    requires GetCommand(w.registry, w.internalRegistry, FindFirstWord(op.buffer)).Throws?
    ensures var name := FindFirstWord(op.buffer);
      Dispatch(w, provider, Some(op)) == Dispatched(FAILURE,
        [LookedUp(name)] + if w.hasNotFoundHandler then [NotFoundHandled(op.buffer)]
                           else [Printed("Command not found: " + name + w.lineSeparator)])
  {
  }

  /** A process is detached exactly when the command was found and a stage threw an exception of
      no class the dispatcher names; the line then fails. */
  lemma UnclassifiedFaultDetaches(w: Wiring, provider: string, output: Option<ConsoleOperation>)
    ensures var d := Dispatch(w, provider, output);
      ProcessDetached in d.events <==>
        && output.Some?
        && |Trim(output.value.buffer)| > 0
        && var found := GetCommand(w.registry, w.internalRegistry, FindFirstWord(output.value.buffer));
        && found.Returns?
        && var outcome := RunStages(found.value, output.value.buffer, Invocation(provider, output.value.controlOperator)).outcome;
        && outcome.Throws? && outcome.exception.OtherException?
    ensures ProcessDetached in Dispatch(w, provider, output).events ==> Dispatch(w, provider, output).result == FAILURE
  {
    if output.Some? && |Trim(output.value.buffer)| > 0 {
      var op := output.value;
      match GetCommand(w.registry, w.internalRegistry, FindFirstWord(op.buffer))
      case Throws(e) =>
        RecoverEvents(w, op.buffer, e);
        DispatchOfUnknownCommand(w, provider, op, e);
      case Returns(c) =>
        FoundCommandDetaches(w, provider, op, c);
    } else {
      assert ProcessDetached !in Dispatch(w, provider, output).events;
    }
  }

  /** Proof step for `UnclassifiedFaultDetaches`: its statement for a line whose command is
      found. */
  lemma FoundCommandDetaches(w: Wiring, provider: string, op: ConsoleOperation, c: Container)
    requires |Trim(op.buffer)| > 0
    requires GetCommand(w.registry, w.internalRegistry, FindFirstWord(op.buffer)) == Returns(c)
    ensures var outcome := RunStages(c, op.buffer, Invocation(provider, op.controlOperator)).outcome;
      ProcessDetached in Dispatch(w, provider, Some(op)).events <==> outcome.Throws? && outcome.exception.OtherException?
    ensures ProcessDetached in Dispatch(w, provider, Some(op)).events ==> Dispatch(w, provider, Some(op)).result == FAILURE
  {
    var run, after := DispatchOfFoundCommand(w, provider, op, c);
    assert ProcessDetached !in run.events by {
      RunStagesSpec(c, op.buffer, Invocation(provider, op.controlOperator));
    }
    assert ProcessDetached in after <==> run.outcome.Throws? && run.outcome.exception.OtherException? by {
      if run.outcome.Throws? {
        RecoverEvents(w, op.buffer, run.outcome.exception);
      }
    }
    HeldMembership(LookedUp(FindFirstWord(op.buffer)), Acquired(c.name), run.events, Released(c.name), after, ProcessDetached);
  }

  /** Every `execute` runs with the invocation provider that is selected when the line comes in,
      and with the line's own control operator. */
  lemma ExecuteUsesSelectedProvider(w: Wiring, provider: string, op: ConsoleOperation)
    ensures forall e :: e in Dispatch(w, provider, Some(op)).events && e.Executed? ==>
      e.invocation == Invocation(provider, op.controlOperator)
  {
    if |Trim(op.buffer)| > 0 {
      match GetCommand(w.registry, w.internalRegistry, FindFirstWord(op.buffer))
      case Throws(e) =>
        RecoverEvents(w, op.buffer, e);
        DispatchOfUnknownCommand(w, provider, op, e);
      case Returns(c) =>
        FoundCommandUsesSelectedProvider(w, provider, op, c);
    }
  }

  /** Proof step for `ExecuteUsesSelectedProvider`: its statement for a line whose command is
      found. */
  lemma FoundCommandUsesSelectedProvider(w: Wiring, provider: string, op: ConsoleOperation, c: Container)
    requires |Trim(op.buffer)| > 0
    requires GetCommand(w.registry, w.internalRegistry, FindFirstWord(op.buffer)) == Returns(c)
    ensures forall e :: e in Dispatch(w, provider, Some(op)).events && e.Executed? ==>
      e.invocation == Invocation(provider, op.controlOperator)
  {
    var invocation := Invocation(provider, op.controlOperator);
    var run, after := DispatchOfFoundCommand(w, provider, op, c);
    RunStagesSpec(c, op.buffer, invocation);
    ExecutedOnlyWith([LookedUp(FindFirstWord(op.buffer)), Acquired(c.name)] + run.events + [Released(c.name)],
                     after, invocation);
  }

  /** Proof step for `FoundCommandUsesSelectedProvider`: when the events before and after carry
      no `execute` other than one with `invocation`, neither does the whole run. */
  lemma ExecutedOnlyWith(before: seq<Event>, after: seq<Event>, invocation: Invocation)
    requires forall e :: e in before && e.Executed? ==> e == Executed(invocation)
    requires forall e :: e in after ==> !e.Executed?
    ensures forall e :: e in before + after && e.Executed? ==> e.invocation == invocation
  {
  }

  /** Proof step for `ReleasedOnceAround`: `Count` of a one-event list. */
  lemma CountOne(e: Event, isKind: Event -> bool)
    ensures Count([e], isKind) == if isKind(e) then 1 else 0
  {
    assert [e][..0] == [];
  }

  /** Once a line's command is found, its container is opened once and closed once, whichever
      stage fails; the validator and `execute` run only while it is open, and the catch clause
      runs only after it is closed. Without a found command no container is opened. */
  lemma ContainerReleasedExactlyOnce(w: Wiring, provider: string, op: ConsoleOperation)
    ensures var events := Dispatch(w, provider, Some(op)).events;
      var found := |Trim(op.buffer)| > 0
        && GetCommand(w.registry, w.internalRegistry, FindFirstWord(op.buffer)).Returns?;
      Count(events, IsAcquire) == Count(events, IsRelease) == if found then 1 else 0
    ensures var events := Dispatch(w, provider, Some(op)).events;
      forall i, j :: 0 <= i < j < |events| && events[j].Acquired? ==> !events[i].Executed? && !events[i].Validated?
    ensures var events := Dispatch(w, provider, Some(op)).events;
      forall i, j :: 0 <= i < j < |events| && events[i].Released? ==>
        !events[j].Executed? && !events[j].Validated?
  {
    var d := Dispatch(w, provider, Some(op));
    if |Trim(op.buffer)| > 0 {
      var name := FindFirstWord(op.buffer);
      match GetCommand(w.registry, w.internalRegistry, name)
      case Throws(e) =>
        RecoverEvents(w, op.buffer, e);
        DispatchOfUnknownCommand(w, provider, op, e);
        NothingOpened(name, Recover(w, op.buffer, e));
      case Returns(c) =>
        var run, after := DispatchOfFoundCommand(w, provider, op, c);
        RunStagesSpec(c, op.buffer, Invocation(provider, op.controlOperator));
        ReleasedOnceAround(name, c.name, run.events, after);
    } else {
      assert d.events == [];
    }
  }

  /** Proof step for `ContainerReleasedExactlyOnce`: the counting argument when no container is
      opened, the lookup and a catch clause. */
  lemma NothingOpened(name: string, after: seq<Event>)
    requires forall ev :: ev in after ==> ev.Printed? || ev.NotFoundHandled? || ev.ProcessDetached?
    ensures var events := [LookedUp(name)] + after;
      && Count(events, IsAcquire) == 0 && Count(events, IsRelease) == 0
      && Count(events, IsValidate) == 0 && Count(events, IsExecute) == 0
      && (forall i, j :: 0 <= i < j < |events| && events[j].Acquired? ==> !events[i].Executed? && !events[i].Validated?)
      && (forall i, j :: 0 <= i < j < |events| && events[i].Released? ==> !events[j].Executed? && !events[j].Validated?)
  {
    var events := [LookedUp(name)] + after;
    assert forall ev :: ev in events ==> !ev.Acquired? && !ev.Released? && !ev.Validated? && !ev.Executed?;
    CountNone(events, IsAcquire);
    CountNone(events, IsRelease);
    CountNone(events, IsValidate);
    CountNone(events, IsExecute);
  }

  /** The counting and ordering argument for one opened container: the events before it is
      opened, while it is open and after it is closed. */
  lemma ReleasedOnceAround(name: string, container: string, inside: seq<Event>, after: seq<Event>)
    requires forall ev :: ev in inside ==> ev.Validated? || ev.Executed?
    requires forall ev :: ev in after ==> ev.Printed? || ev.NotFoundHandled? || ev.ProcessDetached?
    ensures var events := [LookedUp(name), Acquired(container)] + inside + [Released(container)] + after;
      && Count(events, IsAcquire) == 1 && Count(events, IsRelease) == 1
      && (forall i, j :: 0 <= i < j < |events| && events[j].Acquired? ==> !events[i].Executed? && !events[i].Validated?)
      && (forall i, j :: 0 <= i < j < |events| && events[i].Released? ==> !events[j].Executed? && !events[j].Validated?)
  {
    var front := [LookedUp(name), Acquired(container)];
    var back := [Released(container)];
    var events := front + inside + back + after;
    CountConcat(front + inside + back, after, IsAcquire);
    CountConcat(front + inside, back, IsAcquire);
    CountConcat(front, inside, IsAcquire);
    CountConcat(front + inside + back, after, IsRelease);
    CountConcat(front + inside, back, IsRelease);
    CountConcat(front, inside, IsRelease);
    CountNone(after, IsAcquire);
    CountNone(after, IsRelease);
    CountNone(inside, IsAcquire);
    CountNone(inside, IsRelease);
    CountConcat([LookedUp(name)], [Acquired(container)], IsAcquire);
    CountConcat([LookedUp(name)], [Acquired(container)], IsRelease);
    assert front == [LookedUp(name)] + [Acquired(container)];
    CountOne(LookedUp(name), IsAcquire);
    CountOne(LookedUp(name), IsRelease);
    CountOne(Acquired(container), IsAcquire);
    CountOne(Acquired(container), IsRelease);
    CountOne(Released(container), IsAcquire);
    CountOne(Released(container), IsRelease);
    forall k | 0 <= k < |events|
      ensures events[k].Acquired? <==> k == 1
      ensures events[k].Released? <==> k == 2 + |inside|
      ensures events[k].Executed? || events[k].Validated? ==> 2 <= k < 2 + |inside|
    {
      if 2 <= k < 2 + |inside| {
        assert events[k] == inside[k - 2];
        assert inside[k - 2] in inside;
      } else if k > 2 + |inside| {
        assert events[k] == after[k - 3 - |inside|];
        assert after[k - 3 - |inside|] in after;
      }
    }
  }
}
