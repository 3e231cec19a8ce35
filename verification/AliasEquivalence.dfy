/**
 A command alias that adds nothing of its own behaves as its attached command
 on every command line, although the two are parsed by different loops.
 */
module AliasEquivalence {
  import opened Registry
  import opened Parser

  /** `a` is an alias without required values or attached arguments, beside its ordinary attached command. */
  predicate PlainAlias(reg: Registry, a: nat) {
    && a < |reg.commands|
    && reg.commands[a].Alias?
    && reg.commands[a].required == 0
    && reg.commands[a].attached == []
    && reg.commands[a].target < |reg.commands|
    && reg.commands[reg.commands[a].target].Ordinary?
    && reg.commands[a].parent == reg.commands[reg.commands[a].target].parent
    && ConflictsOf(reg.conflicts, CommandRef(a)) == []
    && ConflictsOf(reg.conflicts, CommandRef(reg.commands[a].target)) == []
  }

  /** The same kind of error; the texts may name the alias or the command, a letter or its whole token. */
  predicate SameError(x: ParseError, y: ParseError) {
    || x == y
    || (x.UnknownArgument? && y.UnknownArgument?)
    || (x.MissingPositional? && y.MissingPositional? && x.p == y.p)
  }

  /** Equal states, and equal outcomes up to the wording of errors. */
  predicate SameTurns<T(==)>(x: Outcome<T>, y: Outcome<T>) {
    && x.st == y.st
    && x.Done? == y.Done?
    && (x.Done? && y.Done? ==> x.value == y.value)
    && (x.Threw? && y.Threw? ==> SameError(x.error, y.error))
  }

  /** Everything but the command counters is equal, and each run raised only its own command's counter. */
  ghost predicate SameRun(x: Outcome<()>, y: Outcome<()>, a: nat, t: nat) {
    && x.Done? == y.Done?
    && (x.Threw? && y.Threw? ==> SameError(x.error, y.error))
    && x.st.options == y.st.options
    && x.st.vectors == y.st.vectors
    && x.st.hooks == y.st.hooks
    && x.st.uses == y.st.uses
    && x.st.selected == y.st.selected
    && (forall arg :: arg != CommandRef(a) && arg != CommandRef(t) ==> Count(x.st, arg) == Count(y.st, arg))
    && (x.st == y.st ||
        (&& Count(x.st, CommandRef(a)) == Count(y.st, CommandRef(a)) + 1
         && Count(y.st, CommandRef(t)) == Count(x.st, CommandRef(t)) + 1))
    && (x.Done? ==> x.st != y.st)
  }

  lemma {:induction false} LoopsAgree(
    reg: Registry, a: nat, option: string, argv: seq<string>, pos: Position, used: nat, st: ParseState)
    requires Sound(reg) && PlainAlias(reg, a) && AtPosition(argv, pos)
    ensures SameTurns(AliasLoop(reg, a, option, argv, pos, used, st),
                      OrdinaryLoop(reg, reg.commands[a].target, option, argv, pos, used, st))
    decreases |argv| - pos.i, LettersLeft(argv, pos)
  {
    if pos.i < |argv| {
      TurnsAgree(reg, a, option, argv, pos, used, st);
      var turn := AliasTurn(reg, a, option, argv, pos, used, st);
      if turn.Done? {
        LoopsAgree(reg, a, option, argv, turn.value.0, turn.value.1, turn.st);
      }
    }
  }

  lemma {:induction false} TurnsAgree(
    reg: Registry, a: nat, option: string, argv: seq<string>, pos: Position, used: nat, st: ParseState)
    requires Sound(reg) && PlainAlias(reg, a) && AtPosition(argv, pos) && pos.i < |argv|
    ensures SameTurns(AliasTurn(reg, a, option, argv, pos, used, st),
                      OrdinaryTurn(reg, reg.commands[a].target, option, argv, pos, used, st))
  {
    SameOptions(reg, a);
    var t := reg.commands[a].target;
    var token := argv[pos.i];
    var taken := TakeOption(reg, Searchable(reg, t), argv, pos, st);
    if taken.Done? && taken.value.None? && FindCommand(reg, CommandsOf(reg, t), token).Some? {
      SameConflicts(reg, a, st);
    }
  }

  lemma {:induction false} SameOptions(reg: Registry, a: nat)
    requires Fits(reg) && PlainAlias(reg, a)
    ensures SearchableByAlias(reg, a) == Searchable(reg, reg.commands[a].target)
  {
    assert CommandFits(reg, a);
  }

  /** Neither the alias nor its command conflicts with anything. */
  lemma {:induction false} SameConflicts(reg: Registry, a: nat, st: ParseState)
    requires PlainAlias(reg, a)
    ensures ConflictOf(reg, st, CommandRef(a)).None? && ConflictOf(reg, st, CommandRef(reg.commands[a].target)).None?
  {
  }

  lemma {:induction false} FirstMissingSame(reg: Registry, ps: seq<nat>, s: ParseState, t: ParseState)
    requires forall k :: 0 <= k < |ps| ==> ps[k] < |reg.positional|
    requires forall p :: Count(s, PositionalRef(p)) == Count(t, PositionalRef(p))
    ensures FirstMissing(reg, ps, s) == FirstMissing(reg, ps, t)
  {
    if ps != [] {
      FirstMissingSame(reg, ps[1..], s, t);
    }
  }

  /** The ends of the two commands, from the same state. */
  lemma {:induction false} FinishAgrees(reg: Registry, a: nat, option: string, words: seq<string>, st: ParseState)
    requires Sound(reg) && PlainAlias(reg, a)
    ensures var t := reg.commands[a].target;
            SameRun(Finish(reg, a, t, option, words, st), Finish(reg, t, t, option, words, st), a, t)
  {
    var t := reg.commands[a].target;
    assert CommandFits(reg, a);
    var x, y := Bump(st, CommandRef(a)), Bump(st, CommandRef(t));
    FirstMissingSame(reg, PositionalsOf(reg, t), x, y);
    assert Count(x, CommandRef(a)) == Count(y, CommandRef(a)) + 1;
  }

  lemma {:induction false} PlainStart(reg: Registry, a: nat, option: string, argv: seq<string>, at: nat, st: ParseState)
    requires Sound(reg) && PlainAlias(reg, a) && at < |argv|
    ensures AliasStart(reg, a, option, argv, at, st) == Done(Position(at + 1, 0), st)
  {
  }

  /**
   On every argv, from every state, parsing with the alias and parsing with its
   attached command store the same values, count the same arguments, call the
   same hooks and succeed or fail alike; only the two commands' own counters differ.
   */
  lemma {:induction false} AliasMatchesCommand(
    reg: Registry, a: nat, option: string, argv: seq<string>, at: nat, st: ParseState)
    requires Sound(reg) && PlainAlias(reg, a) && at < |argv|
    ensures var t := reg.commands[a].target;
            SameRun(ParseCommand(reg, a, option, argv, at, st), ParseCommand(reg, t, option, argv, at, st), a, t)
  {
    var t := reg.commands[a].target;
    PlainStart(reg, a, option, argv, at, st);
    LoopsAgree(reg, a, option, argv, Position(at + 1, 0), 0, st);
    var loop := OrdinaryLoop(reg, t, option, argv, Position(at + 1, 0), 0, st);
    if loop.Done? {
      FinishAgrees(reg, a, option, From(argv, at), loop.st);
    }
  }
}
