/**
 Whole command lines that differ in one word, which names a plain alias on one
 line and its attached command on the other, have the same effect.
 */
module AliasLines {
  import opened Wrappers
  import opened Registry
  import opened Parser
  import opened ParserFrames
  import opened AliasEquivalence

  // ---------- one form for ordinary commands and aliases ----------

  function Options(reg: Registry, c: nat): (r: seq<nat>)
    requires Fits(reg) && c < |reg.commands|
    ensures forall k :: 0 <= k < |r| ==> r[k] < |reg.named|
  {
    if reg.commands[c].Ordinary? then Searchable(reg, c) else SearchableByAlias(reg, c)
  }

  /** What happens before the loop of a command. */
  function Start(reg: Registry, c: nat, option: string, argv: seq<string>, at: nat, st: ParseState)
    : (r: Outcome<Position>)
    requires Sound(reg) && c < |reg.commands| && at < |argv|
    ensures r.Done? ==> AtPosition(argv, r.value) && at < r.value.i
  {
    if reg.commands[c].Ordinary? then Done(Position(at + 1, 0), st) else AliasStart(reg, c, option, argv, at, st)
  }

  function Turn(reg: Registry, c: nat, option: string, argv: seq<string>, pos: Position, used: nat, st: ParseState)
    : (r: Outcome<(Position, nat)>)
    requires Sound(reg) && c < |reg.commands| && AtPosition(argv, pos) && pos.i < |argv|
    ensures r.Done? ==> Advances(argv, pos, r.value.0)
  {
    if reg.commands[c].Ordinary? then OrdinaryTurn(reg, c, option, argv, pos, used, st)
    else AliasTurn(reg, c, option, argv, pos, used, st)
  }

  function Loop(reg: Registry, c: nat, option: string, argv: seq<string>, pos: Position, used: nat, st: ParseState)
    : Outcome<()>
    requires Sound(reg) && c < |reg.commands| && AtPosition(argv, pos)
  {
    if reg.commands[c].Ordinary? then OrdinaryLoop(reg, c, option, argv, pos, used, st)
    else AliasLoop(reg, c, option, argv, pos, used, st)
  }

  /** Whose hook is called at the end of a command. */
  function Owner(reg: Registry, c: nat): (o: nat)
    requires Fits(reg) && c < |reg.commands|
    ensures o < |reg.commands|
  {
    assert CommandFits(reg, c);
    if reg.commands[c].Ordinary? then c else reg.commands[c].target
  }

  lemma {:induction false} LoopStep(
    reg: Registry, c: nat, option: string, argv: seq<string>, pos: Position, used: nat, st: ParseState)
    requires Sound(reg) && c < |reg.commands| && AtPosition(argv, pos)
    ensures Loop(reg, c, option, argv, pos, used, st) ==
            if pos.i == |argv| then Done((), st)
            else
              match Turn(reg, c, option, argv, pos, used, st)
              case Threw(e, st') => Threw(e, st')
              case Done((next, used'), st') => Loop(reg, c, option, argv, next, used', st')
  {
  }

  lemma {:induction false} ParseSteps(reg: Registry, c: nat, option: string, argv: seq<string>, at: nat, st: ParseState)
    requires Sound(reg) && c < |reg.commands| && at < |argv|
    ensures ParseCommand(reg, c, option, argv, at, st) ==
            match Start(reg, c, option, argv, at, st)
            case Threw(e, st') => Threw(e, st')
            case Done(q, st') =>
              match Loop(reg, c, option, argv, q, 0, st')
              case Threw(e, st'') => Threw(e, st'')
              case Done(_, st'') => Finish(reg, c, Owner(reg, c), option, From(argv, at), st'')
  {
  }

  /** The subcommand that a turn enters, if no option takes the word and nothing conflicts. */
  function Enters(reg: Registry, c: nat, argv: seq<string>, pos: Position, st: ParseState): (d: Option<nat>)
    requires Sound(reg) && c < |reg.commands| && AtPosition(argv, pos) && pos.i < |argv|
    ensures d.Some? ==> d.value < |reg.commands|
  {
    match TakeOption(reg, Options(reg, c), argv, pos, st)
    case Threw(_, _) => None
    case Done(Some(_), _) => None
    case Done(None, _) =>
      match FindCommand(reg, CommandsOf(reg, c), argv[pos.i])
      case None => None
      case Some(d) => if ConflictOf(reg, st, CommandRef(c)).None? then Some(d) else None
  }

  lemma {:induction false} TurnEnters(
    reg: Registry, c: nat, option: string, argv: seq<string>, pos: Position, used: nat, st: ParseState)
    requires Sound(reg) && c < |reg.commands| && AtPosition(argv, pos) && pos.i < |argv|
    requires Enters(reg, c, argv, pos, st).Some?
    ensures Turn(reg, c, option, argv, pos, used, st) ==
            match Descend(reg, Enters(reg, c, argv, pos, st).value, argv, pos, st)
            case Threw(e, st') => Threw(e, st')
            case Done(_, st') => Done((Position(|argv|, 0), used), st')
  {
    assert CommandFits(reg, c);
  }

  // ---------- what earlier words cannot change ----------

  /** The lines agree from word i on. */
  predicate Agree(v: seq<string>, w: seq<string>, i: nat) {
    |v| == |w| && i <= |v| && v[i..] == w[i..]
  }

  lemma {:induction false} AgreeLater(v: seq<string>, w: seq<string>, i: nat, j: nat)
    requires Agree(v, w, i) && i <= j <= |v|
    ensures Agree(v, w, j) && From(v, j) == From(w, j)
    ensures j < |v| ==> v[j] == w[j]
  {
    assert v[j..] == v[i..][j - i..] && w[j..] == w[i..][j - i..];
    assert j < |v| ==> v[j] == v[j..][0] && w[j] == w[j..][0];
  }

  /** The same selected command, or the alias on one side and its command on the other. */
  predicate Chosen(x: nat, y: nat, a: nat, t: nat) {
    x == y || (x == a && y == t)
  }

  /** The same state up to the recorded uses and the choice between alias and command. */
  predicate Near(x: ParseState, y: ParseState, a: nat, t: nat) {
    SameCore(x, y) && x.hooks == y.hooks && Chosen(x.selected, y.selected, a, t)
  }

  /** An error without the texts that name the command or the option. */
  function ErrorKind(e: ParseError): ParseError {
    match e
    case Conflicting(_, other) => Conflicting("", other)
    case UnknownArgument(_, _) => UnknownArgument("", "")
    case MissingPositional(p, _) => MissingPositional(p, "")
    case _ => e
  }

  ghost predicate NearO<T(!new)>(x: Outcome<T>, y: Outcome<T>, a: nat, t: nat) {
    && Near(x.st, y.st, a, t)
    && x.Done? == y.Done?
    && (x.Done? && y.Done? ==> x.value == y.value)
    && (x.Threw? && y.Threw? ==> ErrorKind(x.error) == ErrorKind(y.error))
  }

  lemma {:induction false} FramedIsNear<T(!new)>(
    st: ParseState, o: ParseState, r: Outcome<T>, s: Outcome<T>, a: nat, t: nat)
    requires Near(st, o, a, t) && Framed(st, o, r, s) && r.st.selected == st.selected
    ensures NearO(r, s, a, t)
  {
    assert st.hooks + r.st.hooks[|st.hooks|..] == r.st.hooks;
  }

  lemma {:induction false} TakeOptionNear(
    reg: Registry, opts: seq<nat>, v: seq<string>, w: seq<string>, pos: Position, st: ParseState, su: ParseState,
    a: nat, t: nat)
    requires Sound(reg) && AtPosition(v, pos) && pos.i < |v| && Agree(v, w, pos.i) && Near(st, su, a, t)
    requires forall k :: 0 <= k < |opts| ==> opts[k] < |reg.named|
    ensures AtPosition(w, pos) && NearO(TakeOption(reg, opts, v, pos, st), TakeOption(reg, opts, w, pos, su), a, t)
  {
    AgreeLater(v, w, pos.i, pos.i);
    var token := v[pos.i];
    if StartsWithDash(token) {
      var n := FindOption(reg, opts, token, pos.idx);
      if n.Some? {
        if IsLong(token) {
          TakeLongNear(reg, n.value, v, w, pos, st, su, a, t);
        } else {
          TakeShortNear(reg, n.value, v, w, pos, st, su, a, t);
        }
      }
    }
  }

  lemma {:induction false} TakeLongNear(
    reg: Registry, n: nat, v: seq<string>, w: seq<string>, pos: Position, st: ParseState, su: ParseState,
    a: nat, t: nat)
    requires Sound(reg) && AtPosition(v, pos) && AtPosition(w, pos) && pos.i < |v| && IsLong(v[pos.i])
    requires n < |reg.named|
    requires Agree(v, w, pos.i) && v[pos.i] == w[pos.i] && From(v, pos.i) == From(w, pos.i) && Near(st, su, a, t)
    ensures NearO(TakeLong(reg, n, v, pos, st), TakeLong(reg, n, w, pos, su), a, t)
  {
    var text, args := From(v[pos.i], 2), From(v, pos.i);
    LongFrame(reg, n, text, args, st, su);
    FramedIsNear(st, su, ParseLong(reg, n, text, args, st), ParseLong(reg, n, text, args, su), a, t);
  }

  lemma {:induction false} TakeShortNear(
    reg: Registry, n: nat, v: seq<string>, w: seq<string>, pos: Position, st: ParseState, su: ParseState,
    a: nat, t: nat)
    requires Sound(reg) && AtPosition(v, pos) && AtPosition(w, pos) && pos.i < |v| && n < |reg.named|
    requires StartsWithDash(v[pos.i]) && !IsLong(v[pos.i]) && 1 + pos.idx < |v[pos.i]|
    requires Agree(v, w, pos.i) && v[pos.i] == w[pos.i] && From(v, pos.i) == From(w, pos.i) && Near(st, su, a, t)
    ensures NearO(TakeShort(reg, n, v, pos, st), TakeShort(reg, n, w, pos, su), a, t)
  {
    var text, args := From(v[pos.i], 1 + pos.idx), From(v, pos.i);
    ShortFrame(reg, n, text, args, st, su);
    FramedIsNear(st, su, ParseShort(reg, n, text, args, st), ParseShort(reg, n, text, args, su), a, t);
    TookShortNear(reg, n, v, w, pos, st, su, ParseShort(reg, n, text, args, st), ParseShort(reg, n, text, args, su),
                  a, t);
  }

  lemma {:induction false} TookShortNear(
    reg: Registry, n: nat, v: seq<string>, w: seq<string>, pos: Position, st: ParseState, su: ParseState,
    r: Outcome<nat>, s: Outcome<nat>, a: nat, t: nat)
    requires Fits(reg) && Parsed(reg, v, pos, st, r) && Parsed(reg, w, pos, su, s) && v[pos.i] == w[pos.i]
    requires NearO(r, s, a, t)
    requires StartsWithDash(v[pos.i]) && !IsLong(v[pos.i]) && 1 + pos.idx < |v[pos.i]|
    requires r.Done? && r.value == 0 ==> 2 + pos.idx < |v[pos.i]|
    ensures NearO(TookShort(reg, n, v, pos, st, r), TookShort(reg, n, w, pos, su, s), a, t)
  {
  }

  lemma {:induction false} TakePositionalNear(
    reg: Registry, p: nat, v: seq<string>, w: seq<string>, pos: Position, used: nat, st: ParseState, su: ParseState,
    a: nat, t: nat)
    requires Fits(reg) && p < |reg.positional| && AtPosition(v, pos) && AtPosition(w, pos) && pos.i < |v|
    requires !StartsWithDash(v[pos.i])
    requires Agree(v, w, pos.i) && v[pos.i] == w[pos.i] && From(v, pos.i) == From(w, pos.i) && Near(st, su, a, t)
    ensures NearO(TakePositional(reg, p, v, pos, used, st), TakePositional(reg, p, w, pos, used, su), a, t)
  {
    var args := From(v, pos.i);
    PositionalFrame(reg, p, v[pos.i], args, st, su);
    FramedIsNear(st, su, ParsePositional(reg, p, v[pos.i], args, st), ParsePositional(reg, p, v[pos.i], args, su),
                 a, t);
  }

  lemma {:induction false} ConflictNear(reg: Registry, st: ParseState, su: ParseState, arg: Arg)
    requires SameCore(st, su)
    ensures ConflictOf(reg, st, arg) == ConflictOf(reg, su, arg)
  {
    FirstParsedFrame(st, su, arg, ConflictsOf(reg.conflicts, arg));
  }

  lemma {:induction false} StartNear(
    reg: Registry, c: nat, option: string, v: seq<string>, w: seq<string>, at: nat, st: ParseState, su: ParseState,
    a: nat, t: nat)
    requires Sound(reg) && c < |reg.commands| && at < |v| && Agree(v, w, at) && Near(st, su, a, t)
    ensures NearO(Start(reg, c, option, v, at, st), Start(reg, c, option, w, at, su), a, t)
  {
    AgreeLater(v, w, at, at);
    if reg.commands[c].Alias? && reg.commands[c].required < |v| - at {
      var words := AliasWords(v, at, reg.commands[c].required);
      assert words == From(v, at)[..|words|] && AliasWords(w, at, reg.commands[c].required) == From(w, at)[..|words|];
      FireAliasFrame(reg, c, 0, option, words, st, su);
      FramedIsNear(st, su, FireAlias(reg, c, 0, option, words, st), FireAlias(reg, c, 0, option, words, su), a, t);
    }
  }

  lemma {:induction false} FinishNear(
    reg: Registry, c: nat, owner: nat, option: string, words: seq<string>, st: ParseState, su: ParseState,
    a: nat, t: nat)
    requires Fits(reg) && c < |reg.commands| && owner < |reg.commands| && Near(st, su, a, t)
    ensures NearO(Finish(reg, c, owner, option, words, st), Finish(reg, c, owner, option, words, su), a, t)
  {
    assert Count(st, CommandRef(c)) == Count(su, CommandRef(c));
    var x, y := Bump(st, CommandRef(c)), Bump(su, CommandRef(c));
    assert forall p :: Count(x, PositionalRef(p)) == Count(y, PositionalRef(p));
    FirstMissingSame(reg, PositionalsOf(reg, c), x, y);
  }

  /** What a turn does when neither an option nor a subcommand takes the word. */
  function Otherwise(reg: Registry, c: nat, argv: seq<string>, pos: Position, used: nat, st: ParseState)
    : (r: Outcome<(Position, nat)>)
    requires Sound(reg) && c < |reg.commands| && AtPosition(argv, pos) && pos.i < |argv|
  {
    var ps := PositionalsOf(reg, c);
    if !StartsWithDash(argv[pos.i]) && used < |ps| then TakePositional(reg, ps[used], argv, pos, used, st)
    else
      var id := reg.commands[c].id;
      var text := if reg.commands[c].Ordinary? then UnusedText(argv[pos.i], pos.idx) else argv[pos.i];
      Threw(UnknownArgument(id, text), st)
  }

  /** The cases of a turn. */
  lemma {:induction false} TurnCases(
    reg: Registry, c: nat, option: string, argv: seq<string>, pos: Position, used: nat, st: ParseState)
    requires Sound(reg) && c < |reg.commands| && AtPosition(argv, pos) && pos.i < |argv|
    requires Enters(reg, c, argv, pos, st).None?
    ensures Turn(reg, c, option, argv, pos, used, st) ==
            match TakeOption(reg, Options(reg, c), argv, pos, st)
            case Threw(e, st') => Threw(e, st')
            case Done(Some(next), st') => Done((next, used), st')
            case Done(None, _) =>
              if FindCommand(reg, CommandsOf(reg, c), argv[pos.i]).Some?
              then Threw(Conflicting(option, ConflictOf(reg, st, CommandRef(c)).value), st)
              else Otherwise(reg, c, argv, pos, used, st)
  {
    assert CommandFits(reg, c);
  }

  // ---------- the rest of a line ----------

  lemma {:induction false} EntersNear(
    reg: Registry, c: nat, v: seq<string>, w: seq<string>, pos: Position, st: ParseState, su: ParseState,
    a: nat, t: nat)
    requires Sound(reg) && c < |reg.commands| && AtPosition(v, pos) && pos.i < |v| && Agree(v, w, pos.i)
    requires Near(st, su, a, t)
    ensures AtPosition(w, pos) && v[pos.i] == w[pos.i] && Enters(reg, c, v, pos, st) == Enters(reg, c, w, pos, su)
  {
    AgreeLater(v, w, pos.i, pos.i);
    TakeOptionNear(reg, Options(reg, c), v, w, pos, st, su, a, t);
    ConflictNear(reg, st, su, CommandRef(c));
  }

  lemma {:induction false} OtherwiseNear(
    reg: Registry, c: nat, v: seq<string>, w: seq<string>, pos: Position, used: nat, st: ParseState, su: ParseState,
    a: nat, t: nat)
    requires Sound(reg) && c < |reg.commands| && AtPosition(v, pos) && AtPosition(w, pos) && pos.i < |v|
    requires Agree(v, w, pos.i) && Near(st, su, a, t)
    ensures NearO(Otherwise(reg, c, v, pos, used, st), Otherwise(reg, c, w, pos, used, su), a, t)
  {
    AgreeLater(v, w, pos.i, pos.i);
    var ps := PositionalsOf(reg, c);
    if !StartsWithDash(v[pos.i]) && used < |ps| {
      TakePositionalNear(reg, ps[used], v, w, pos, used, st, su, a, t);
    }
  }

  /** A turn that enters no subcommand. */
  lemma {:induction false} StayNear(
    reg: Registry, c: nat, ov: string, ow: string, v: seq<string>, w: seq<string>, pos: Position, used: nat,
    st: ParseState, su: ParseState, a: nat, t: nat)
    requires Sound(reg) && c < |reg.commands| && AtPosition(v, pos) && AtPosition(w, pos) && pos.i < |v|
    requires Agree(v, w, pos.i) && Near(st, su, a, t)
    requires Enters(reg, c, v, pos, st).None? && Enters(reg, c, w, pos, su).None?
    ensures NearO(Turn(reg, c, ov, v, pos, used, st), Turn(reg, c, ow, w, pos, used, su), a, t)
  {
    AgreeLater(v, w, pos.i, pos.i);
    TurnCases(reg, c, ov, v, pos, used, st);
    TurnCases(reg, c, ow, w, pos, used, su);
    TakeOptionNear(reg, Options(reg, c), v, w, pos, st, su, a, t);
    ConflictNear(reg, st, su, CommandRef(c));
    OtherwiseNear(reg, c, v, w, pos, used, st, su, a, t);
  }

  lemma {:induction false} TurnNear(
    reg: Registry, c: nat, ov: string, ow: string, v: seq<string>, w: seq<string>, pos: Position, used: nat,
    st: ParseState, su: ParseState, a: nat, t: nat)
    requires Sound(reg) && c < |reg.commands| && AtPosition(v, pos) && pos.i < |v| && Agree(v, w, pos.i)
    requires Near(st, su, a, t)
    ensures AtPosition(w, pos) && NearO(Turn(reg, c, ov, v, pos, used, st), Turn(reg, c, ow, w, pos, used, su), a, t)
    decreases |v| - pos.i, 0, 3
  {
    EntersNear(reg, c, v, w, pos, st, su, a, t);
    match Enters(reg, c, v, pos, st)
    case Some(d) =>
      TurnEnters(reg, c, ov, v, pos, used, st);
      TurnEnters(reg, c, ow, w, pos, used, su);
      DescendNear(reg, d, v, w, pos, st, su, a, t);
    case None => StayNear(reg, c, ov, ow, v, w, pos, used, st, su, a, t);
  }

  lemma {:induction false} DescendNear(
    reg: Registry, d: nat, v: seq<string>, w: seq<string>, pos: Position, st: ParseState, su: ParseState,
    a: nat, t: nat)
    requires Sound(reg) && d < |reg.commands| && AtPosition(v, pos) && AtPosition(w, pos) && pos.i < |v|
    requires Agree(v, w, pos.i) && Near(st, su, a, t)
    ensures NearO(Descend(reg, d, v, pos, st), Descend(reg, d, w, pos, su), a, t)
    decreases |v| - pos.i, 0, 2
  {
    AgreeLater(v, w, pos.i, pos.i);
    var u := Tokens(CommandRef(d), pos.i, 1, pos.idx);
    ParseNear(reg, d, v[pos.i], v, w, pos.i, Log(st, u).(selected := d), Log(su, u).(selected := d), a, t);
  }

  lemma {:induction false} ParseNear(
    reg: Registry, c: nat, option: string, v: seq<string>, w: seq<string>, at: nat, st: ParseState, su: ParseState,
    a: nat, t: nat)
    requires Sound(reg) && c < |reg.commands| && at < |v| && Agree(v, w, at) && Near(st, su, a, t)
    ensures NearO(ParseCommand(reg, c, option, v, at, st), ParseCommand(reg, c, option, w, at, su), a, t)
    decreases |v| - at, 0, 1
  {
    ParseSteps(reg, c, option, v, at, st);
    ParseSteps(reg, c, option, w, at, su);
    StartNear(reg, c, option, v, w, at, st, su, a, t);
    var x, y := Start(reg, c, option, v, at, st), Start(reg, c, option, w, at, su);
    if x.Done? {
      AgreeLater(v, w, at, x.value.i);
      LoopNear(reg, c, option, option, v, w, x.value, 0, x.st, y.st, a, t);
      var lx, ly := Loop(reg, c, option, v, x.value, 0, x.st), Loop(reg, c, option, w, y.value, 0, y.st);
      if lx.Done? {
        AgreeLater(v, w, at, at);
        FinishNear(reg, c, Owner(reg, c), option, From(v, at), lx.st, ly.st, a, t);
      }
    }
  }

  lemma {:induction false} LoopNear(
    reg: Registry, c: nat, ov: string, ow: string, v: seq<string>, w: seq<string>, pos: Position, used: nat,
    st: ParseState, su: ParseState, a: nat, t: nat)
    requires Sound(reg) && c < |reg.commands| && AtPosition(v, pos) && Agree(v, w, pos.i) && Near(st, su, a, t)
    ensures AtPosition(w, pos) && NearO(Loop(reg, c, ov, v, pos, used, st), Loop(reg, c, ow, w, pos, used, su), a, t)
    decreases |v| - pos.i, 1, LettersLeft(v, pos)
  {
    AgreeLater(v, w, pos.i, pos.i);
    LoopStep(reg, c, ov, v, pos, used, st);
    LoopStep(reg, c, ow, w, pos, used, su);
    if pos.i < |v| {
      TurnNear(reg, c, ov, ow, v, w, pos, used, st, su, a, t);
      var x, y := Turn(reg, c, ov, v, pos, used, st), Turn(reg, c, ow, w, pos, used, su);
      if x.Done? {
        AgreeLater(v, w, pos.i, x.value.0.i);
        LoopNear(reg, c, ov, ow, v, w, x.value.0, x.value.1, x.st, y.st, a, t);
      }
    }
  }

  // ---------- the words before ----------

  /** The lines differ at word i only, and neither word there looks like an option. */
  predicate DifferAt(v: seq<string>, w: seq<string>, i: nat) {
    && i < |v| == |w| && (forall k :: 0 <= k < |v| && k != i ==> v[k] == w[k])
    && !StartsWithDash(v[i]) && !StartsWithDash(w[i])
  }

  lemma {:induction false} LongBefore(
    reg: Registry, n: nat, option: string, x: seq<string>, y: seq<string>, st: ParseState)
    requires Sound(reg) && n < |reg.named| && |x| == |y| > 0
    requires ParseLong(reg, n, option, x, st).Done? && (ParseLong(reg, n, option, x, st).value > 1 ==> x[1] == y[1])
    ensures ParseLong(reg, n, option, y, st) == ParseLong(reg, n, option, x, st)
  {
    assert LongValue(reg.named[n], option, x) == LongValue(reg.named[n], option, y);
  }

  lemma {:induction false} ShortBefore(
    reg: Registry, n: nat, option: string, x: seq<string>, y: seq<string>, st: ParseState)
    requires Sound(reg) && n < |reg.named| && |x| == |y| > 0 && |option| > 0
    requires ParseShort(reg, n, option, x, st).Done? && (ParseShort(reg, n, option, x, st).value > 1 ==> x[1] == y[1])
    ensures ParseShort(reg, n, option, y, st) == ParseShort(reg, n, option, x, st)
  {
    assert ShortValue(reg.named[n], option, x) == ShortValue(reg.named[n], option, y);
  }

  lemma {:induction false} UsableSame(x: seq<string>, y: seq<string>, from: nat)
    requires |x| == |y| && 1 <= from <= |x|
    requires forall k :: 0 <= k < |x| ==> StartsWithDash(x[k]) == StartsWithDash(y[k])
    ensures Usable(x, from) == Usable(y, from)
    decreases |x| - from
  {
    if from < |x| && !StartsWithDash(x[from]) {
      UsableSame(x, y, from + 1);
    }
  }

  lemma {:induction false} PositionalBefore(
    reg: Registry, p: nat, option: string, x: seq<string>, y: seq<string>, j: nat, st: ParseState)
    requires Fits(reg) && p < |reg.positional| && 0 < j && DifferAt(x, y, j)
    requires ParsePositional(reg, p, option, x, st).Done? && ParsePositional(reg, p, option, x, st).value <= j
    ensures ParsePositional(reg, p, option, y, st) == ParsePositional(reg, p, option, x, st)
  {
    var nvals, count := reg.positional[p].nvals, ParsePositional(reg, p, option, x, st).value;
    assert forall k :: 0 <= k < |x| ==> StartsWithDash(x[k]) == StartsWithDash(y[k]);
    UsableSame(x, y, 1);
    assert OptionAmong(x, nvals) == OptionAmong(y, nvals);
    assert ValueCount(nvals, x) == ValueCount(nvals, y) == count;
    assert x[..count] == y[..count];
  }

  lemma {:induction false} DifferFrom(v: seq<string>, w: seq<string>, i: nat, at: nat)
    requires DifferAt(v, w, i) && at <= i
    ensures DifferAt(From(v, at), From(w, at), i - at) && |v| == |w|
    ensures at < i ==> v[at] == w[at]
    ensures at + 1 < i ==> From(v, at)[1] == From(w, at)[1]
  {
  }

  /** A word before the differing one: an option that uses no word beyond it is taken alike. */
  lemma {:induction false} TakeOptionBefore(
    reg: Registry, opts: seq<nat>, v: seq<string>, w: seq<string>, i: nat, pos: Position, st: ParseState)
    requires Sound(reg) && AtPosition(v, pos) && pos.i < i && DifferAt(v, w, i)
    requires forall k :: 0 <= k < |opts| ==> opts[k] < |reg.named|
    ensures AtPosition(w, pos)
    ensures var r := TakeOption(reg, opts, v, pos, st);
            r.Done? && (r.value.Some? ==> r.value.value.i <= i) ==> TakeOption(reg, opts, w, pos, st) == r
  {
    DifferFrom(v, w, i, pos.i);
    var token, r := v[pos.i], TakeOption(reg, opts, v, pos, st);
    if StartsWithDash(token) && FindOption(reg, opts, token, pos.idx).Some? && r.Done? && r.value.value.i <= i {
      var n := FindOption(reg, opts, token, pos.idx).value;
      if IsLong(token) {
        TakeLongBefore(reg, n, v, w, i, pos, st);
      } else {
        TakeShortBefore(reg, n, v, w, i, pos, st);
      }
    }
  }

  lemma {:induction false} TakeLongBefore(
    reg: Registry, n: nat, v: seq<string>, w: seq<string>, i: nat, pos: Position, st: ParseState)
    requires Sound(reg) && AtPosition(v, pos) && AtPosition(w, pos) && pos.i < i && DifferAt(v, w, i) && n < |reg.named|
    requires v[pos.i] == w[pos.i] && IsLong(v[pos.i])
    requires TakeLong(reg, n, v, pos, st).Done? && TakeLong(reg, n, v, pos, st).value.i <= i
    ensures TakeLong(reg, n, w, pos, st) == TakeLong(reg, n, v, pos, st)
  {
    DifferFrom(v, w, i, pos.i);
    var text := From(v[pos.i], 2);
    var parsed := ParseLong(reg, n, text, From(v, pos.i), st);
    TookLongSame(reg, n, v, w, pos, st, parsed);
    LongBefore(reg, n, text, From(v, pos.i), From(w, pos.i), st);
  }

  lemma {:induction false} TookLongSame(
    reg: Registry, n: nat, v: seq<string>, w: seq<string>, pos: Position, st: ParseState, parsed: Outcome<nat>)
    requires Fits(reg) && Parsed(reg, v, pos, st, parsed) && AtPosition(w, pos) && |v| == |w| && v[pos.i] == w[pos.i]
    requires IsLong(v[pos.i])
    requires parsed.Done? ==> parsed.value > 0
    ensures Parsed(reg, w, pos, st, parsed)
    ensures TookLong(reg, n, v, pos, st, parsed) == TookLong(reg, n, w, pos, st, parsed)
    ensures TookLong(reg, n, v, pos, st, parsed).Done? ==>
              parsed.Done? && TookLong(reg, n, v, pos, st, parsed).value.i == pos.i + parsed.value
  {
  }

  lemma {:induction false} TakeShortBefore(
    reg: Registry, n: nat, v: seq<string>, w: seq<string>, i: nat, pos: Position, st: ParseState)
    requires Sound(reg) && AtPosition(v, pos) && AtPosition(w, pos) && pos.i < i && DifferAt(v, w, i) && n < |reg.named|
    requires v[pos.i] == w[pos.i] && StartsWithDash(v[pos.i]) && !IsLong(v[pos.i]) && 1 + pos.idx < |v[pos.i]|
    requires TakeShort(reg, n, v, pos, st).Done? && TakeShort(reg, n, v, pos, st).value.i <= i
    ensures TakeShort(reg, n, w, pos, st) == TakeShort(reg, n, v, pos, st)
  {
    DifferFrom(v, w, i, pos.i);
    var text := From(v[pos.i], 1 + pos.idx);
    var parsed := ParseShort(reg, n, text, From(v, pos.i), st);
    TookShortSame(reg, n, v, w, pos, st, parsed);
    ShortBefore(reg, n, text, From(v, pos.i), From(w, pos.i), st);
  }

  lemma {:induction false} TookShortSame(
    reg: Registry, n: nat, v: seq<string>, w: seq<string>, pos: Position, st: ParseState, parsed: Outcome<nat>)
    requires Fits(reg) && Parsed(reg, v, pos, st, parsed) && AtPosition(w, pos) && |v| == |w| && v[pos.i] == w[pos.i]
    requires StartsWithDash(v[pos.i]) && !IsLong(v[pos.i]) && 1 + pos.idx < |v[pos.i]|
    requires parsed.Done? && parsed.value == 0 ==> 2 + pos.idx < |v[pos.i]|
    ensures Parsed(reg, w, pos, st, parsed)
    ensures TookShort(reg, n, v, pos, st, parsed) == TookShort(reg, n, w, pos, st, parsed)
    ensures TookShort(reg, n, v, pos, st, parsed).Done? ==>
              parsed.Done? && TookShort(reg, n, v, pos, st, parsed).value.i == pos.i + parsed.value
  {
  }

  lemma {:induction false} EntersBefore(
    reg: Registry, c: nat, v: seq<string>, w: seq<string>, i: nat, pos: Position, st: ParseState)
    requires Sound(reg) && c < |reg.commands| && AtPosition(v, pos) && pos.i < i && DifferAt(v, w, i)
    requires Enters(reg, c, v, pos, st).Some?
    ensures AtPosition(w, pos) && v[pos.i] == w[pos.i] && Enters(reg, c, w, pos, st) == Enters(reg, c, v, pos, st)
  {
    DifferFrom(v, w, i, pos.i);
    TakeOptionBefore(reg, Options(reg, c), v, w, i, pos, st);
  }

  lemma {:induction false} OtherwiseBefore(
    reg: Registry, c: nat, v: seq<string>, w: seq<string>, i: nat, pos: Position, used: nat, st: ParseState)
    requires Sound(reg) && c < |reg.commands| && AtPosition(v, pos) && AtPosition(w, pos) && pos.i < i
    requires DifferAt(v, w, i)
    requires Otherwise(reg, c, v, pos, used, st).Done? && Otherwise(reg, c, v, pos, used, st).value.0.i <= i
    ensures Otherwise(reg, c, w, pos, used, st) == Otherwise(reg, c, v, pos, used, st)
  {
    DifferFrom(v, w, i, pos.i);
    PositionalBefore(reg, PositionalsOf(reg, c)[used], v[pos.i], From(v, pos.i), From(w, pos.i), i - pos.i, st);
  }

  /** A turn that enters no subcommand and ends before or at the differing word goes alike. */
  lemma {:induction false} TurnBefore(
    reg: Registry, c: nat, option: string, v: seq<string>, w: seq<string>, i: nat, pos: Position, used: nat,
    st: ParseState)
    requires Sound(reg) && c < |reg.commands| && AtPosition(v, pos) && pos.i < i && DifferAt(v, w, i)
    requires Enters(reg, c, v, pos, st).None?
    requires Turn(reg, c, option, v, pos, used, st).Done? && Turn(reg, c, option, v, pos, used, st).value.0.i <= i
    ensures AtPosition(w, pos) && Turn(reg, c, option, w, pos, used, st) == Turn(reg, c, option, v, pos, used, st)
  {
    DifferFrom(v, w, i, pos.i);
    TurnCases(reg, c, option, v, pos, used, st);
    TakeOptionBefore(reg, Options(reg, c), v, w, i, pos, st);
    TurnCases(reg, c, option, w, pos, used, st);
    if TakeOption(reg, Options(reg, c), v, pos, st).value.None? {
      OtherwiseBefore(reg, c, v, w, i, pos, used, st);
    }
  }

  lemma {:induction false} StartBefore(
    reg: Registry, c: nat, option: string, v: seq<string>, w: seq<string>, i: nat, at: nat, st: ParseState)
    requires Sound(reg) && c < |reg.commands| && at < i && DifferAt(v, w, i)
    requires Start(reg, c, option, v, at, st).Done? && Start(reg, c, option, v, at, st).value.i <= i
    ensures Start(reg, c, option, w, at, st) == Start(reg, c, option, v, at, st)
  {
    DifferFrom(v, w, i, at);
    if reg.commands[c].Alias? {
      assert AliasWords(v, at, reg.commands[c].required) == AliasWords(w, at, reg.commands[c].required);
    }
  }

  // ---------- what two lines have in common ----------

  predicate Swapped(x: string, y: string, from: string, to: string) {
    x == y || (x == from && y == to)
  }

  ghost predicate WordsSwapped(x: seq<string>, y: seq<string>, from: string, to: string) {
    |x| == |y| && forall k :: 0 <= k < |x| ==> Swapped(x[k], y[k], from, to)
  }

  /** The same call, but for the word that names the alias or the command. */
  ghost predicate HookLike(x: HookCall, y: HookCall, from: string, to: string) {
    x == y || (&& x.CommandHook? && y.CommandHook? && x.c == y.c
               && Swapped(x.option, y.option, from, to) && WordsSwapped(x.argv, y.argv, from, to))
  }

  ghost predicate HooksLike(x: seq<HookCall>, y: seq<HookCall>, from: string, to: string) {
    |x| == |y| && forall k :: 0 <= k < |x| ==> HookLike(x[k], y[k], from, to)
  }

  function CommandCounts(st: ParseState, a: nat, t: nat): nat {
    Count(st, CommandRef(a)) + Count(st, CommandRef(t))
  }

  /**
   The same values, counts and hook calls; the alias and its command may have
   swapped their counts and being selected, and hooks may see the other word.
   */
  ghost predicate Line(reg: Registry, x: ParseState, y: ParseState, a: nat, t: nat)
    requires a < |reg.commands| && t < |reg.commands|
  {
    && x.options == y.options && x.vectors == y.vectors
    && HooksLike(x.hooks, y.hooks, reg.commands[a].id, reg.commands[t].id)
    && Chosen(x.selected, y.selected, a, t)
    && (forall arg :: arg != CommandRef(a) && arg != CommandRef(t) ==> Count(x, arg) == Count(y, arg))
    && CommandCounts(x, a, t) == CommandCounts(y, a, t)
  }

  ghost predicate LineO(reg: Registry, x: Outcome<()>, y: Outcome<()>, a: nat, t: nat)
    requires a < |reg.commands| && t < |reg.commands|
  {
    && Line(reg, x.st, y.st, a, t)
    && x.Done? == y.Done?
    && (x.Threw? && y.Threw? ==> ErrorKind(x.error) == ErrorKind(y.error))
  }

  lemma {:induction false} NearIsLine(reg: Registry, x: ParseState, y: ParseState, a: nat, t: nat)
    requires a < |reg.commands| && t < |reg.commands| && Near(x, y, a, t)
    ensures Line(reg, x, y, a, t)
  {
    assert forall arg :: Count(x, arg) == Count(y, arg);
  }

  /** The end of a command, when the states and the words have the line in common. */
  lemma {:induction false} FinishLine(
    reg: Registry, c: nat, d: nat, owner: nat, option: string, other: string, v: seq<string>, w: seq<string>,
    x: ParseState, y: ParseState, a: nat, t: nat)
    requires Fits(reg) && c < |reg.commands| && d < |reg.commands| && owner < |reg.commands|
    requires a < |reg.commands| && t < |reg.commands| && a != t && Line(reg, x, y, a, t)
    requires c == d || (c == a && d == t && Body(reg, a) == Body(reg, t))
    requires Swapped(option, other, reg.commands[a].id, reg.commands[t].id)
    requires WordsSwapped(v, w, reg.commands[a].id, reg.commands[t].id)
    ensures LineO(reg, Finish(reg, c, owner, option, v, x), Finish(reg, d, owner, other, w, y), a, t)
  {
    var p, q := Bump(x, CommandRef(c)), Bump(y, CommandRef(d));
    BumpLine(reg, c, d, x, y, a, t);
    MissingLine(reg, PositionalsOf(reg, c), p, q, a, t);
    if FirstMissing(reg, PositionalsOf(reg, c), p).None? && reg.commands[Body(reg, c)].hasHook {
      HookLine(reg, p, q, CommandHook(owner, option, v), CommandHook(owner, other, w), a, t);
    }
  }

  lemma {:induction false} MissingLine(reg: Registry, ps: seq<nat>, x: ParseState, y: ParseState, a: nat, t: nat)
    requires a < |reg.commands| && t < |reg.commands| && Line(reg, x, y, a, t)
    requires forall k :: 0 <= k < |ps| ==> ps[k] < |reg.positional|
    ensures FirstMissing(reg, ps, x) == FirstMissing(reg, ps, y)
  {
    FirstMissingSame(reg, ps, x, y);
  }

  lemma {:induction false} BumpLine(reg: Registry, c: nat, d: nat, x: ParseState, y: ParseState, a: nat, t: nat)
    requires a < |reg.commands| && t < |reg.commands| && a != t && Line(reg, x, y, a, t)
    requires c == d || (c == a && d == t)
    ensures Line(reg, Bump(x, CommandRef(c)), Bump(y, CommandRef(d)), a, t)
  {
    var p, q := Bump(x, CommandRef(c)), Bump(y, CommandRef(d));
    forall arg
      ensures Count(p, arg) == Count(x, arg) + if arg == CommandRef(c) then 1 else 0
      ensures Count(q, arg) == Count(y, arg) + if arg == CommandRef(d) then 1 else 0
    {
    }
    assert c != a && c != t ==> Count(x, CommandRef(c)) == Count(y, CommandRef(c));
  }

  lemma {:induction false} HookLine(
    reg: Registry, x: ParseState, y: ParseState, h: HookCall, g: HookCall, a: nat, t: nat)
    requires a < |reg.commands| && t < |reg.commands| && Line(reg, x, y, a, t)
    requires HookLike(h, g, reg.commands[a].id, reg.commands[t].id)
    ensures Line(reg, x.(hooks := x.hooks + [h]), y.(hooks := y.hooks + [g]), a, t)
  {
    assert forall arg :: Count(x.(hooks := x.hooks + [h]), arg) == Count(x, arg);
    assert forall arg :: Count(y.(hooks := y.hooks + [g]), arg) == Count(y, arg);
  }

  // ---------- the word itself ----------

  /** Word i names plain alias `a` on line v and its attached command on line w; the lines are equal elsewhere. */
  predicate Renamed(reg: Registry, a: nat, v: seq<string>, w: seq<string>, i: nat) {
    && PlainAlias(reg, a) && DifferAt(v, w, i)
    && v[i] == reg.commands[a].id && w[i] == reg.commands[reg.commands[a].target].id
  }

  lemma {:induction false} RenamedWords(reg: Registry, a: nat, v: seq<string>, w: seq<string>, i: nat, at: nat)
    requires Renamed(reg, a, v, w, i) && at <= i
    ensures WordsSwapped(From(v, at), From(w, at), reg.commands[a].id, reg.commands[reg.commands[a].target].id)
    ensures Agree(v, w, i + 1)
  {
  }

  /** The loops of the alias and of the command over the rest of the line. */
  lemma {:induction false} WordLoops(
    reg: Registry, a: nat, v: seq<string>, w: seq<string>, i: nat, st: ParseState, su: ParseState)
    requires Sound(reg) && Renamed(reg, a, v, w, i) && Near(st, su, a, reg.commands[a].target)
    ensures NearO(Loop(reg, a, v[i], v, Position(i + 1, 0), 0, st),
                  Loop(reg, reg.commands[a].target, w[i], w, Position(i + 1, 0), 0, su), a, reg.commands[a].target)
  {
    RenamedWords(reg, a, v, w, i, i);
    LoopsAgree(reg, a, v[i], v, Position(i + 1, 0), 0, st);
    LoopNear(reg, reg.commands[a].target, v[i], w[i], v, w, Position(i + 1, 0), 0, st, su, a, reg.commands[a].target);
  }

  lemma {:induction false} WordParse(
    reg: Registry, a: nat, v: seq<string>, w: seq<string>, i: nat, st: ParseState, su: ParseState)
    requires Sound(reg) && Renamed(reg, a, v, w, i) && Near(st, su, a, reg.commands[a].target)
    ensures LineO(reg, ParseCommand(reg, a, v[i], v, i, st), ParseCommand(reg, reg.commands[a].target, w[i], w, i, su),
                  a, reg.commands[a].target)
  {
    var t := reg.commands[a].target;
    assert CommandFits(reg, a);
    ParseSteps(reg, a, v[i], v, i, st);
    ParseSteps(reg, t, w[i], w, i, su);
    PlainStart(reg, a, v[i], v, i, st);
    WordLoops(reg, a, v, w, i, st, su);
    var x, y := Loop(reg, a, v[i], v, Position(i + 1, 0), 0, st), Loop(reg, t, w[i], w, Position(i + 1, 0), 0, su);
    NearIsLine(reg, x.st, y.st, a, t);
    if x.Done? {
      RenamedWords(reg, a, v, w, i, i);
      FinishLine(reg, a, t, t, v[i], w[i], From(v, i), From(w, i), x.st, y.st, a, t);
    }
  }

  lemma {:induction false} WordDescend(
    reg: Registry, a: nat, v: seq<string>, w: seq<string>, pos: Position, st: ParseState)
    requires Sound(reg) && AtPosition(v, pos) && AtPosition(w, pos) && Renamed(reg, a, v, w, pos.i)
    ensures LineO(reg, Descend(reg, a, v, pos, st), Descend(reg, reg.commands[a].target, w, pos, st),
                  a, reg.commands[a].target)
  {
    var t := reg.commands[a].target;
    var u, z := Tokens(CommandRef(a), pos.i, 1, pos.idx), Tokens(CommandRef(t), pos.i, 1, pos.idx);
    WordParse(reg, a, v, w, pos.i, Log(st, u).(selected := a), Log(st, z).(selected := t));
  }

  /** The command offers both the alias and its attached command under their ids. */
  predicate Offers(reg: Registry, c: nat, a: nat)
    requires Fits(reg) && c < |reg.commands| && PlainAlias(reg, a)
  {
    && FindCommand(reg, CommandsOf(reg, c), reg.commands[a].id) == Some(a)
    && FindCommand(reg, CommandsOf(reg, c), reg.commands[reg.commands[a].target].id) == Some(reg.commands[a].target)
  }

  /** A turn that enters a subcommand is the last of its loop. */
  lemma {:induction false} LoopEnters(
    reg: Registry, c: nat, option: string, argv: seq<string>, pos: Position, used: nat, st: ParseState)
    requires Sound(reg) && c < |reg.commands| && AtPosition(argv, pos) && pos.i < |argv|
    requires Enters(reg, c, argv, pos, st).Some?
    ensures Loop(reg, c, option, argv, pos, used, st) ==
            Descend(reg, Enters(reg, c, argv, pos, st).value, argv, pos, st)
  {
    LoopStep(reg, c, option, argv, pos, used, st);
    TurnEnters(reg, c, option, argv, pos, used, st);
    var r := Descend(reg, Enters(reg, c, argv, pos, st).value, argv, pos, st);
    if r.Done? {
      assert r.value == ();
      LoopStep(reg, c, option, argv, Position(|argv|, 0), used, r.st);
    }
  }

  lemma {:induction false} NoOptionHere(reg: Registry, c: nat, argv: seq<string>, pos: Position, st: ParseState)
    requires Sound(reg) && c < |reg.commands| && AtPosition(argv, pos) && pos.i < |argv| && !StartsWithDash(argv[pos.i])
    ensures TakeOption(reg, Options(reg, c), argv, pos, st) == Done(None, st)
  {
  }

  lemma {:induction false} WordLoop(
    reg: Registry, c: nat, option: string, a: nat, v: seq<string>, w: seq<string>, pos: Position, used: nat,
    st: ParseState)
    requires Sound(reg) && c < |reg.commands| && AtPosition(v, pos) && Renamed(reg, a, v, w, pos.i) && Offers(reg, c, a)
    ensures AtPosition(w, pos)
    ensures LineO(reg, Loop(reg, c, option, v, pos, used, st), Loop(reg, c, option, w, pos, used, st),
                  a, reg.commands[a].target)
  {
    var t := reg.commands[a].target;
    NoOptionHere(reg, c, v, pos, st);
    NoOptionHere(reg, c, w, pos, st);
    if ConflictOf(reg, st, CommandRef(c)).None? {
      LoopEnters(reg, c, option, v, pos, used, st);
      LoopEnters(reg, c, option, w, pos, used, st);
      WordDescend(reg, a, v, w, pos, st);
    } else {
      LoopStep(reg, c, option, v, pos, used, st);
      LoopStep(reg, c, option, w, pos, used, st);
      TurnCases(reg, c, option, v, pos, used, st);
      TurnCases(reg, c, option, w, pos, used, st);
      NearIsLine(reg, st, st, a, t);
    }
  }

  // ---------- the whole line ----------

  /**
   The loop of `c` standing at `pos` comes to stand at word i, itself or a
   subcommand on the way, in a command that offers alias `a` and its command.
   */
  ghost predicate Reaches(
    reg: Registry, c: nat, option: string, argv: seq<string>, pos: Position, used: nat, st: ParseState, i: nat, a: nat)
    requires Sound(reg) && c < |reg.commands| && AtPosition(argv, pos) && i < |argv| && PlainAlias(reg, a)
    decreases |argv| - pos.i, 1, LettersLeft(argv, pos)
  {
    if pos.i >= i then pos.i == i && Offers(reg, c, a)
    else
      match Enters(reg, c, argv, pos, st)
      case Some(d) =>
        ReachesIn(reg, d, argv[pos.i], argv, pos.i,
                  Log(st, Tokens(CommandRef(d), pos.i, 1, pos.idx)).(selected := d), i, a)
      case None =>
        match Turn(reg, c, option, argv, pos, used, st)
        case Threw(_, _) => false
        case Done((next, used'), st') => Reaches(reg, c, option, argv, next, used', st', i, a)
  }

  /** Parsing argv[at..] with command `c` comes to stand at word i. */
  ghost predicate ReachesIn(
    reg: Registry, c: nat, option: string, argv: seq<string>, at: nat, st: ParseState, i: nat, a: nat)
    requires Sound(reg) && c < |reg.commands| && at < |argv| && i < |argv| && PlainAlias(reg, a)
    decreases |argv| - at, 0, 0
  {
    match Start(reg, c, option, argv, at, st)
    case Threw(_, _) => false
    case Done(q, st') => Reaches(reg, c, option, argv, q, 0, st', i, a)
  }

  lemma {:induction false} ReachesBound(
    reg: Registry, c: nat, option: string, argv: seq<string>, pos: Position, used: nat, st: ParseState, i: nat, a: nat)
    requires Sound(reg) && c < |reg.commands| && AtPosition(argv, pos) && i < |argv| && PlainAlias(reg, a)
    requires Reaches(reg, c, option, argv, pos, used, st, i, a)
    ensures pos.i <= i
  {
  }

  lemma {:induction false} LineLoop(
    reg: Registry, c: nat, option: string, v: seq<string>, w: seq<string>, pos: Position, used: nat, st: ParseState,
    i: nat, a: nat)
    requires Sound(reg) && c < |reg.commands| && AtPosition(v, pos) && Renamed(reg, a, v, w, i)
    requires Reaches(reg, c, option, v, pos, used, st, i, a)
    ensures AtPosition(w, pos)
    ensures LineO(reg, Loop(reg, c, option, v, pos, used, st), Loop(reg, c, option, w, pos, used, st),
                  a, reg.commands[a].target)
    decreases |v| - pos.i, 1, LettersLeft(v, pos)
  {
    if pos.i == i {
      WordLoop(reg, c, option, a, v, w, pos, used, st);
    } else {
      match Enters(reg, c, v, pos, st)
      case Some(d) =>
        EntersBefore(reg, c, v, w, i, pos, st);
        LoopEnters(reg, c, option, v, pos, used, st);
        LoopEnters(reg, c, option, w, pos, used, st);
        LineParse(reg, d, v[pos.i], v, w, pos.i, Log(st, Tokens(CommandRef(d), pos.i, 1, pos.idx)).(selected := d),
                  i, a);
      case None =>
        var turn := Turn(reg, c, option, v, pos, used, st);
        ReachesBound(reg, c, option, v, turn.value.0, turn.value.1, turn.st, i, a);
        TurnBefore(reg, c, option, v, w, i, pos, used, st);
        LoopStep(reg, c, option, v, pos, used, st);
        LoopStep(reg, c, option, w, pos, used, st);
        LineLoop(reg, c, option, v, w, turn.value.0, turn.value.1, turn.st, i, a);
    }
  }

  lemma {:induction false} LineParse(
    reg: Registry, c: nat, option: string, v: seq<string>, w: seq<string>, at: nat, st: ParseState, i: nat, a: nat)
    requires Sound(reg) && c < |reg.commands| && at < i && Renamed(reg, a, v, w, i)
    requires ReachesIn(reg, c, option, v, at, st, i, a)
    ensures LineO(reg, ParseCommand(reg, c, option, v, at, st), ParseCommand(reg, c, option, w, at, st),
                  a, reg.commands[a].target)
    decreases |v| - at, 0, 0
  {
    var start := Start(reg, c, option, v, at, st);
    ReachesBound(reg, c, option, v, start.value, 0, start.st, i, a);
    StartBefore(reg, c, option, v, w, i, at, st);
    ParseSteps(reg, c, option, v, at, st);
    ParseSteps(reg, c, option, w, at, st);
    LineLoop(reg, c, option, v, w, start.value, 0, start.st, i, a);
    var x, y := Loop(reg, c, option, v, start.value, 0, start.st), Loop(reg, c, option, w, start.value, 0, start.st);
    if x.Done? {
      assert CommandFits(reg, a);
      RenamedWords(reg, a, v, w, i, at);
      FinishLine(reg, c, c, Owner(reg, c), option, option, From(v, at), From(w, at), x.st, y.st,
                 a, reg.commands[a].target);
    }
  }

  /**
   Two command lines that differ in one word, which names a plain alias on one
   and its attached command on the other where the parser offers both, give the
   same option values, positional values, counts, hook calls and outcome; the
   alias and its command may only have swapped their own counts and being the
   selected command, and hooks see the word that was given.
   */
  lemma {:induction false} LinesAgree(reg: Registry, a: nat, v: seq<string>, w: seq<string>, i: nat, st: ParseState)
    requires Sound(reg) && i > 0 && Renamed(reg, a, v, w, i)
    requires ReachesIn(reg, reg.root, v[0], v, 0, st.(selected := reg.root), i, a)
    ensures LineO(reg, ParseArgv(reg, v, st), ParseArgv(reg, w, st), a, reg.commands[a].target)
  {
    LineParse(reg, reg.root, v[0], v, w, 0, st.(selected := reg.root), i, a);
  }

  /** For example where the word comes first: no condition on the rest of the line is left. */
  lemma {:induction false} FirstWordsAgree(reg: Registry, a: nat, v: seq<string>, w: seq<string>, st: ParseState)
    requires Sound(reg) && Renamed(reg, a, v, w, 1) && reg.commands[reg.root].Ordinary? && Offers(reg, reg.root, a)
    ensures LineO(reg, ParseArgv(reg, v, st), ParseArgv(reg, w, st), a, reg.commands[a].target)
  {
    assert Reaches(reg, reg.root, v[0], v, Position(1, 0), 0, st.(selected := reg.root), 1, a);
    LinesAgree(reg, a, v, w, 1, st);
  }
}
