/**
 What the words of a command line mean to a command: which option a word
 names, what it does and where the line goes on, which values a positional
 argument takes, when a command ends well, and which command is selected.
 */
module ParserMeaning {
  import opened Wrappers
  import opened Registry
  import opened Parser
  import opened ParserFirings
  import ParserSpellings
  import A = AliasLines

  // ---------- which option a word names ----------

  /**
   The word names the argument: "--name" or "--name=...", or the letter at
   `idx` of a cluster "-letters". A long name with an '=' cannot be named.
   */
  predicate Names(arg: NamedArg, token: string, idx: nat)
    requires StartsWithDash(token)
  {
    if |token| > 1 && token[1] == '-' then
      var long := "--" + arg.longName;
      && arg.longName != "" && '=' !in arg.longName
      && (token == long || (|token| > |long| && token[..|long|] == long && token[|long|] == '='))
    else
      1 + idx < |token| && arg.shortName == Some(token[1 + idx])
  }

  lemma {:induction false} NamesIsMatch(arg: NamedArg, token: string, idx: nat)
    requires StartsWithDash(token)
    ensures MatchesOption(arg, token, idx) <==> Names(arg, token, idx)
  {
    if IsLong(token) {
      LongNames(arg.longName, token[2..]);
      var long := "--" + arg.longName;
      assert token == "--" + token[2..];
      if |token| > |long| {
        assert token[..|long|] == "--" + token[2..][..|arg.longName|];
      }
    }
  }

  /** The part of a text before its first '=' is `name`. */
  lemma {:induction false} LongNames(name: string, text: string)
    ensures OptionName(text) == name <==>
            '=' !in name && (text == name || (|text| > |name| && text[..|name|] == name && text[|name|] == '='))
  {
    var k := IndexOf(text, '=');
    if k.Some? {
      assert text[..k.value][..] == text[..k.value];
      if '=' !in name && |text| > |name| && text[..|name|] == name && text[|name|] == '=' {
        assert forall i :: 0 <= i < |name| ==> text[i] == name[i];
      }
    }
  }

  /** The argument at position j is the first of the list that the word names. */
  ghost predicate FirstNamed(reg: Registry, opts: seq<nat>, token: string, idx: nat, j: nat)
    requires StartsWithDash(token) && forall k :: 0 <= k < |opts| ==> opts[k] < |reg.named|
  {
    && j < |opts| && Names(reg.named[opts[j]], token, idx)
    && forall k :: 0 <= k < j ==> !Names(reg.named[opts[k]], token, idx)
  }

  /** The search answers with the first argument the word names. */
  lemma {:induction false} FindsFirst(reg: Registry, opts: seq<nat>, token: string, idx: nat, j: nat)
    requires StartsWithDash(token) && forall k :: 0 <= k < |opts| ==> opts[k] < |reg.named|
    requires FirstNamed(reg, opts, token, idx, j)
    ensures FindOption(reg, opts, token, idx) == Some(opts[j])
  {
    NamesIsMatch(reg.named[opts[0]], token, idx);
    if j > 0 {
      FindsFirst(reg, opts[1..], token, idx, j - 1);
    }
  }

  /** It fails exactly when the word names none of them. */
  lemma {:induction false} FindsNone(reg: Registry, opts: seq<nat>, token: string, idx: nat)
    requires StartsWithDash(token) && forall k :: 0 <= k < |opts| ==> opts[k] < |reg.named|
    ensures FindOption(reg, opts, token, idx).None? <==>
            forall k :: 0 <= k < |opts| ==> !Names(reg.named[opts[k]], token, idx)
  {
    if opts != [] {
      NamesIsMatch(reg.named[opts[0]], token, idx);
      FindsNone(reg, opts[1..], token, idx);
      assert forall k :: 0 < k < |opts| ==> opts[k] == opts[1..][k - 1];
    }
  }

  /** A word is left to subcommands and positional arguments exactly when it is no option of the list. */
  lemma {:induction false} LeftToOthers(reg: Registry, opts: seq<nat>, argv: seq<string>, pos: Position, st: ParseState)
    requires Sound(reg) && AtPosition(argv, pos) && pos.i < |argv|
    requires forall k :: 0 <= k < |opts| ==> opts[k] < |reg.named|
    ensures TakeOption(reg, opts, argv, pos, st) == Done(None, st) <==>
            || !StartsWithDash(argv[pos.i])
            || forall k :: 0 <= k < |opts| ==> !Names(reg.named[opts[k]], argv[pos.i], pos.idx)
  {
    if StartsWithDash(argv[pos.i]) {
      FindsNone(reg, opts, argv[pos.i], pos.idx);
    }
  }

  // ---------- what an option does ----------

  /** The firings are played and the use recorded, or the call throws because they cannot all be played. */
  ghost predicate Goes<T(!new)>(
    reg: Registry, r: Outcome<T>, value: T, fs: seq<Firing>, complete: bool, use: Use, st: ParseState)
  {
    && (r.Done? <==> complete && Passes(reg, fs, st))
    && (r.Done? ==> r == Done(value, Log(Play(reg, fs, st), use)))
  }

  /** Argument `n` fires with a value, the line goes on at `next`. */
  ghost predicate Took(
    reg: Registry, r: Outcome<Option<Position>>, n: nat, text: string, value: string, form: Form, next: Position,
    use: Use,
    st: ParseState)
    requires Sound(reg) && n < |reg.named|
  {
    Goes(reg, r, Some(next), Firings(reg, n, text, value, form), Complete(reg, n), use, st)
  }

  /** A search that hands the word to an argument goes on as the argument does. */
  predicate HandedOn(t: Outcome<Position>, r: Outcome<Option<Position>>) {
    match t
    case Threw(_, _) => r.Threw?
    case Done(next, st) => r == Done(Some(next), st)
  }

  lemma {:induction false} TakesNamed(
    reg: Registry, opts: seq<nat>, argv: seq<string>, pos: Position, st: ParseState, n: nat)
    requires Sound(reg) && AtPosition(argv, pos) && pos.i < |argv| && StartsWithDash(argv[pos.i])
    requires forall k :: 0 <= k < |opts| ==> opts[k] < |reg.named|
    requires FindOption(reg, opts, argv[pos.i], pos.idx) == Some(n)
    ensures IsLong(argv[pos.i]) ==> HandedOn(TakeLong(reg, n, argv, pos, st), TakeOption(reg, opts, argv, pos, st))
    ensures !IsLong(argv[pos.i]) ==>
              1 + pos.idx < |argv[pos.i]|
                  && HandedOn(TakeShort(reg, n, argv, pos, st), TakeOption(reg, opts, argv, pos, st))
  {
  }

  lemma {:induction false} GoesOn(
    reg: Registry, t: Outcome<Position>, r: Outcome<Option<Position>>, next: Position, fs: seq<Firing>, complete: bool,
    use: Use,
    st: ParseState)
    requires HandedOn(t, r) && Goes(reg, t, next, fs, complete, use, st)
    ensures Goes(reg, r, Some(next), fs, complete, use, st)
  {
  }

  lemma {:induction false} TookLongIs(
    reg: Registry, n: nat, argv: seq<string>, pos: Position, st: ParseState, parsed: Outcome<nat>)
    requires Fits(reg) && Parsed(reg, argv, pos, st, parsed) && IsLong(argv[pos.i])
             && (parsed.Done? ==> parsed.value > 0)
    ensures TookLong(reg, n, argv, pos, st, parsed) ==
            match parsed
            case Threw(e, s) => Threw(e, s)
            case Done(k, s) => Done(Position(pos.i + k, 0), Log(s, Tokens(NamedRef(n), pos.i, k, 0)))
  {
  }

  /** A long option does what its firings say. */
  lemma {:induction false} TakesLong(
    reg: Registry, n: nat, argv: seq<string>, pos: Position, st: ParseState, value: string, k: nat)
    requires Sound(reg) && AtPosition(argv, pos) && pos.i < |argv| && IsLong(argv[pos.i]) && n < |reg.named|
    requires LongValue(reg.named[n], From(argv[pos.i], 2), From(argv, pos.i)) == Ok((value, k))
    ensures var text := From(argv[pos.i], 2);
            Goes(reg, TakeLong(reg, n, argv, pos, st), Position(pos.i + k, 0),
                 Firings(reg, n, text, value, LongForm(OptionName(text))), Complete(reg, n),
                 Tokens(NamedRef(n), pos.i, k, 0), st)
  {
    var text, args := From(argv[pos.i], 2), From(argv, pos.i);
    LongPlays(reg, n, text, args, st);
    LongGoes(reg, n, argv, pos, st, ParseLong(reg, n, text, args, st), k,
             Firings(reg, n, text, value, LongForm(OptionName(text))), Complete(reg, n));
  }

  lemma {:induction false} LongGoes(
    reg: Registry, n: nat, argv: seq<string>, pos: Position, st: ParseState, parsed: Outcome<nat>, k: nat,
    fs: seq<Firing>, complete: bool)
    requires Fits(reg) && Parsed(reg, argv, pos, st, parsed) && IsLong(argv[pos.i]) && k > 0
    requires Plays(reg, parsed, k, fs, complete, st)
    ensures parsed.Done? ==> parsed.value > 0
    ensures Goes(reg, TookLong(reg, n, argv, pos, st, parsed), Position(pos.i + k, 0), fs, complete,
                 Tokens(NamedRef(n), pos.i, k, 0), st)
  {
    TookLongIs(reg, n, argv, pos, st, parsed);
  }

  lemma {:induction false} LongThrows(reg: Registry, n: nat, argv: seq<string>, pos: Position, st: ParseState)
    requires Sound(reg) && AtPosition(argv, pos) && pos.i < |argv| && IsLong(argv[pos.i]) && n < |reg.named|
    requires LongValue(reg.named[n], From(argv[pos.i], 2), From(argv, pos.i)).Err?
    ensures TakeLong(reg, n, argv, pos, st).Threw?
  {
    LongPlays(reg, n, From(argv[pos.i], 2), From(argv, pos.i), st);
  }

  /** What "name=value" gives an option. */
  lemma {:induction false} AssignedText(arg: NamedArg, value: string, args: seq<string>)
    requires '=' !in arg.longName && |args| > 0
    ensures var text := arg.longName + "=" + value;
            && OptionName(text) == arg.longName
            && (if arg.hasValue then LongValue(arg, text, args) == Ok((value, 1)) else LongValue(arg, text, args).Err?)
  {
    ParserSpellings.AssignSplits(arg.longName, value);
  }

  /** What "name" gives an option. */
  lemma {:induction false} NamedText(arg: NamedArg, args: seq<string>)
    requires '=' !in arg.longName && |args| > 0
    ensures OptionName(arg.longName) == arg.longName
    ensures var taken := LongValue(arg, arg.longName, args);
            if !arg.hasValue then taken == Ok((arg.constValue, 1))
            else if |args| > 1 then taken == Ok((args[1], 2))
            else taken.Err?
  {
  }

  /** "--name=value" fires the option found with the value, or is refused if the option takes none. */
  lemma {:induction false} LongAssigned(
    reg: Registry, opts: seq<nat>, argv: seq<string>, pos: Position, st: ParseState, n: nat, value: string)
    requires Sound(reg) && AtPosition(argv, pos) && pos.i < |argv| && n < |reg.named|
    requires forall k :: 0 <= k < |opts| ==> opts[k] < |reg.named|
    requires IsLong(argv[pos.i]) && From(argv[pos.i], 2) == reg.named[n].longName + "=" + value
    requires '=' !in reg.named[n].longName
    requires FindOption(reg, opts, argv[pos.i], pos.idx) == Some(n)
    ensures var name, r := reg.named[n].longName, TakeOption(reg, opts, argv, pos, st);
            if reg.named[n].hasValue
            then Took(reg, r, n, name + "=" + value, value, LongForm(name), Position(pos.i + 1, 0),
                      Tokens(NamedRef(n), pos.i, 1, 0), st)
            else r.Threw?
  {
    AssignedText(reg.named[n], value, From(argv, pos.i));
    if reg.named[n].hasValue {
      LongTaken(reg, opts, argv, pos, st, n, value, 1);
    } else {
      TakesNamed(reg, opts, argv, pos, st, n);
      LongThrows(reg, n, argv, pos, st);
    }
  }

  lemma {:induction false} LongTaken(
    reg: Registry, opts: seq<nat>, argv: seq<string>, pos: Position, st: ParseState, n: nat, value: string, k: nat)
    requires Sound(reg) && AtPosition(argv, pos) && pos.i < |argv| && IsLong(argv[pos.i]) && n < |reg.named|
    requires forall k :: 0 <= k < |opts| ==> opts[k] < |reg.named|
    requires FindOption(reg, opts, argv[pos.i], pos.idx) == Some(n)
    requires LongValue(reg.named[n], From(argv[pos.i], 2), From(argv, pos.i)) == Ok((value, k))
    ensures var text := From(argv[pos.i], 2);
            Took(reg, TakeOption(reg, opts, argv, pos, st), n, text, value, LongForm(OptionName(text)),
                 Position(pos.i + k, 0), Tokens(NamedRef(n), pos.i, k, 0), st)
  {
    var text := From(argv[pos.i], 2);
    TakesNamed(reg, opts, argv, pos, st, n);
    TakesLong(reg, n, argv, pos, st, value, k);
    GoesOn(reg, TakeLong(reg, n, argv, pos, st), TakeOption(reg, opts, argv, pos, st), Position(pos.i + k, 0),
           Firings(reg, n, text, value, LongForm(OptionName(text))), Complete(reg, n), Tokens(NamedRef(n), pos.i, k, 0),
               st);
  }

  /** "--name" fires a flag with its constant. */
  lemma {:induction false} LongFlag(
    reg: Registry, opts: seq<nat>, argv: seq<string>, pos: Position, st: ParseState, n: nat)
    requires Sound(reg) && AtPosition(argv, pos) && pos.i < |argv| && n < |reg.named|
    requires forall k :: 0 <= k < |opts| ==> opts[k] < |reg.named|
    requires IsLong(argv[pos.i]) && From(argv[pos.i], 2) == reg.named[n].longName && '=' !in reg.named[n].longName
    requires FindOption(reg, opts, argv[pos.i], pos.idx) == Some(n) && !reg.named[n].hasValue
    ensures Took(reg, TakeOption(reg, opts, argv, pos, st), n, reg.named[n].longName, reg.named[n].constValue,
                 LongForm(reg.named[n].longName), Position(pos.i + 1, 0), Tokens(NamedRef(n), pos.i, 1, 0), st)
  {
    NamedText(reg.named[n], From(argv, pos.i));
    LongTaken(reg, opts, argv, pos, st, n, reg.named[n].constValue, 1);
  }

  /** "--name" fires an option that takes a value with the next word. */
  lemma {:induction false} LongWithWord(
    reg: Registry, opts: seq<nat>, argv: seq<string>, pos: Position, st: ParseState, n: nat)
    requires Sound(reg) && AtPosition(argv, pos) && pos.i < |argv| && n < |reg.named|
    requires forall k :: 0 <= k < |opts| ==> opts[k] < |reg.named|
    requires IsLong(argv[pos.i]) && From(argv[pos.i], 2) == reg.named[n].longName && '=' !in reg.named[n].longName
    requires FindOption(reg, opts, argv[pos.i], pos.idx) == Some(n) && reg.named[n].hasValue
    ensures var name, r := reg.named[n].longName, TakeOption(reg, opts, argv, pos, st);
            if pos.i + 1 < |argv|
            then Took(reg, r, n, name, argv[pos.i + 1], LongForm(name), Position(pos.i + 2, 0),
                      Tokens(NamedRef(n), pos.i, 2, 0), st)
            else r.Threw?
  {
    NamedText(reg.named[n], From(argv, pos.i));
    if pos.i + 1 < |argv| {
      LongTaken(reg, opts, argv, pos, st, n, argv[pos.i + 1], 2);
    } else {
      TakesNamed(reg, opts, argv, pos, st, n);
      LongThrows(reg, n, argv, pos, st);
    }
  }

  // ---------- letters of a cluster ----------

  /** Where the line goes on behind a letter that used k words, and what is recorded. */
  function Behind(pos: Position, k: nat): Position {
    if k > 0 then Position(pos.i + k, 0) else Position(pos.i, pos.idx + 1)
  }

  function UsedBy(n: nat, pos: Position, k: nat): Use {
    if k > 0 then Tokens(NamedRef(n), pos.i, k, pos.idx) else ClusterChar(NamedRef(n), pos.i, pos.idx)
  }

  ghost predicate AtLetter(argv: seq<string>, pos: Position) {
    && AtPosition(argv, pos) && pos.i < |argv|
    && StartsWithDash(argv[pos.i]) && !IsLong(argv[pos.i]) && 1 + pos.idx < |argv[pos.i]|
  }

  lemma {:induction false} TookShortIs(
    reg: Registry, n: nat, argv: seq<string>, pos: Position, st: ParseState, parsed: Outcome<nat>)
    requires Fits(reg) && Parsed(reg, argv, pos, st, parsed) && AtLetter(argv, pos)
    requires parsed.Done? && parsed.value == 0 ==> 2 + pos.idx < |argv[pos.i]|
    ensures TookShort(reg, n, argv, pos, st, parsed) ==
            match parsed
            case Threw(e, s) => Threw(e, s)
            case Done(k, s) => Done(Behind(pos, k), Log(s, UsedBy(n, pos, k)))
  {
  }

  /** A letter does what its firings say. */
  lemma {:induction false} TakesShort(
    reg: Registry, n: nat, argv: seq<string>, pos: Position, st: ParseState, value: string, k: nat)
    requires Sound(reg) && n < |reg.named| && AtLetter(argv, pos)
    requires ShortValue(reg.named[n], From(argv[pos.i], 1 + pos.idx), From(argv, pos.i)) == Ok((value, k))
    ensures var text := From(argv[pos.i], 1 + pos.idx);
            Goes(reg, TakeShort(reg, n, argv, pos, st), Behind(pos, k),
                 Firings(reg, n, text, value, ShortForm(text[0])), Complete(reg, n), UsedBy(n, pos, k), st)
  {
    var text, args := From(argv[pos.i], 1 + pos.idx), From(argv, pos.i);
    ShortPlays(reg, n, text, args, st);
    ShortGoes(reg, n, argv, pos, st, ParseShort(reg, n, text, args, st), k,
              Firings(reg, n, text, value, ShortForm(text[0])), Complete(reg, n));
  }

  lemma {:induction false} ShortGoes(
    reg: Registry, n: nat, argv: seq<string>, pos: Position, st: ParseState, parsed: Outcome<nat>, k: nat,
    fs: seq<Firing>, complete: bool)
    requires Fits(reg) && Parsed(reg, argv, pos, st, parsed) && AtLetter(argv, pos)
    requires k == 0 ==> 2 + pos.idx < |argv[pos.i]|
    requires Plays(reg, parsed, k, fs, complete, st)
    ensures parsed.Done? ==> parsed.value == k
    ensures Goes(reg, TookShort(reg, n, argv, pos, st, parsed), Behind(pos, k), fs, complete, UsedBy(n, pos, k), st)
  {
    TookShortIs(reg, n, argv, pos, st, parsed);
  }

  lemma {:induction false} LetterFirst(token: string, k: nat)
    requires k < |token|
    ensures From(token, k)[0] == token[k] && From(token, k)[1..] == token[k + 1..]
  {
  }

  lemma {:induction false} ShortThrows(reg: Registry, n: nat, argv: seq<string>, pos: Position, st: ParseState)
    requires Sound(reg) && n < |reg.named| && AtLetter(argv, pos)
    requires ShortValue(reg.named[n], From(argv[pos.i], 1 + pos.idx), From(argv, pos.i)).Err?
    ensures TakeShort(reg, n, argv, pos, st).Threw?
  {
    ShortPlays(reg, n, From(argv[pos.i], 1 + pos.idx), From(argv, pos.i), st);
  }

  /** What letters give a flag: its constant, and no word is used while letters follow. */
  lemma {:induction false} FlagText(arg: NamedArg, text: string, args: seq<string>)
    requires !arg.hasValue && |text| > 0 && |args| > 0
    ensures ShortValue(arg, text, args) == Ok((arg.constValue, if |text| == 1 then 1 else 0))
  {
  }

  /** What a letter gives an option with a value: the rest of the word, or else the next word. */
  lemma {:induction false} LetterText(arg: NamedArg, token: string, k: nat, args: seq<string>)
    requires arg.hasValue && k < |token| && |args| > 0
    ensures var taken := ShortValue(arg, From(token, k), args);
            if k + 1 < |token| then taken == Ok((token[k + 1..], 1))
            else if |args| > 1 then taken == Ok((args[1], 2))
            else taken.Err?
  {
    LetterFirst(token, k);
  }

  lemma {:induction false} StaysInWord(pos: Position, n: nat)
    ensures Behind(pos, 0) == Position(pos.i, pos.idx + 1)
    ensures UsedBy(n, pos, 0) == ClusterChar(NamedRef(n), pos.i, pos.idx)
  {
  }

  /** A letter that is a flag and not the last fires with its constant and leaves the word to the next letter. */
  lemma {:induction false} LetterFlag(
    reg: Registry, opts: seq<nat>, argv: seq<string>, pos: Position, st: ParseState, n: nat)
    requires Sound(reg) && AtLetter(argv, pos) && n < |reg.named|
    requires forall k :: 0 <= k < |opts| ==> opts[k] < |reg.named|
    requires FindOption(reg, opts, argv[pos.i], pos.idx) == Some(n) && !reg.named[n].hasValue
    requires 2 + pos.idx < |argv[pos.i]|
    ensures var token := argv[pos.i];
            Took(reg, TakeOption(reg, opts, argv, pos, st), n, From(token, 1 + pos.idx), reg.named[n].constValue,
                 ShortForm(token[1 + pos.idx]), Position(pos.i, pos.idx + 1), ClusterChar(NamedRef(n), pos.i, pos.idx),
                     st)
  {
    FlagText(reg.named[n], From(argv[pos.i], 1 + pos.idx), From(argv, pos.i));
    StaysInWord(pos, n);
    ShortTaken(reg, opts, argv, pos, st, n, reg.named[n].constValue, 0);
  }

  /** The last letter that is a flag fires with its constant and ends the word. */
  lemma {:induction false} LastLetterFlag(
    reg: Registry, opts: seq<nat>, argv: seq<string>, pos: Position, st: ParseState, n: nat)
    requires Sound(reg) && AtLetter(argv, pos) && n < |reg.named|
    requires forall k :: 0 <= k < |opts| ==> opts[k] < |reg.named|
    requires FindOption(reg, opts, argv[pos.i], pos.idx) == Some(n) && !reg.named[n].hasValue
    requires 2 + pos.idx == |argv[pos.i]|
    ensures var token := argv[pos.i];
            Took(reg, TakeOption(reg, opts, argv, pos, st), n, From(token, 1 + pos.idx), reg.named[n].constValue,
                 ShortForm(token[1 + pos.idx]), Position(pos.i + 1, 0), Tokens(NamedRef(n), pos.i, 1, pos.idx), st)
  {
    FlagText(reg.named[n], From(argv[pos.i], 1 + pos.idx), From(argv, pos.i));
    ShortTaken(reg, opts, argv, pos, st, n, reg.named[n].constValue, 1);
  }

  /** A letter that takes a value and is not the last: its value is what follows it in the word. */
  lemma {:induction false} LetterWithRest(
    reg: Registry, opts: seq<nat>, argv: seq<string>, pos: Position, st: ParseState, n: nat)
    requires Sound(reg) && AtLetter(argv, pos) && n < |reg.named|
    requires forall k :: 0 <= k < |opts| ==> opts[k] < |reg.named|
    requires FindOption(reg, opts, argv[pos.i], pos.idx) == Some(n) && reg.named[n].hasValue
    requires 2 + pos.idx < |argv[pos.i]|
    ensures var token := argv[pos.i];
            Took(reg, TakeOption(reg, opts, argv, pos, st), n, From(token, 1 + pos.idx), token[2 + pos.idx..],
                 ShortForm(token[1 + pos.idx]), Position(pos.i + 1, 0), Tokens(NamedRef(n), pos.i, 1, pos.idx), st)
  {
    LetterText(reg.named[n], argv[pos.i], 1 + pos.idx, From(argv, pos.i));
    ShortTaken(reg, opts, argv, pos, st, n, argv[pos.i][2 + pos.idx..], 1);
  }

  /** A letter that takes a value and is the last: its value is the next word. */
  lemma {:induction false} LetterWithWord(
    reg: Registry, opts: seq<nat>, argv: seq<string>, pos: Position, st: ParseState, n: nat)
    requires Sound(reg) && AtLetter(argv, pos) && n < |reg.named|
    requires forall k :: 0 <= k < |opts| ==> opts[k] < |reg.named|
    requires FindOption(reg, opts, argv[pos.i], pos.idx) == Some(n) && reg.named[n].hasValue
    requires 2 + pos.idx == |argv[pos.i]|
    ensures var token, r := argv[pos.i], TakeOption(reg, opts, argv, pos, st);
            if pos.i + 1 < |argv|
            then Took(reg, r, n, From(token, 1 + pos.idx), argv[pos.i + 1], ShortForm(token[1 + pos.idx]),
                      Position(pos.i + 2, 0), Tokens(NamedRef(n), pos.i, 2, pos.idx), st)
            else r.Threw?
  {
    LetterText(reg.named[n], argv[pos.i], 1 + pos.idx, From(argv, pos.i));
    if pos.i + 1 < |argv| {
      ShortTaken(reg, opts, argv, pos, st, n, argv[pos.i + 1], 2);
    } else {
      TakesNamed(reg, opts, argv, pos, st, n);
      ShortThrows(reg, n, argv, pos, st);
    }
  }

  lemma {:induction false} ShortTaken(
    reg: Registry, opts: seq<nat>, argv: seq<string>, pos: Position, st: ParseState, n: nat, value: string, k: nat)
    requires Sound(reg) && AtLetter(argv, pos) && n < |reg.named|
    requires forall k :: 0 <= k < |opts| ==> opts[k] < |reg.named|
    requires FindOption(reg, opts, argv[pos.i], pos.idx) == Some(n)
    requires ShortValue(reg.named[n], From(argv[pos.i], 1 + pos.idx), From(argv, pos.i)) == Ok((value, k))
    ensures Took(reg, TakeOption(reg, opts, argv, pos, st), n, From(argv[pos.i], 1 + pos.idx), value,
                 ShortForm(argv[pos.i][1 + pos.idx]), Behind(pos, k), UsedBy(n, pos, k), st)
  {
    var text := From(argv[pos.i], 1 + pos.idx);
    LetterFirst(argv[pos.i], 1 + pos.idx);
    TakesNamed(reg, opts, argv, pos, st, n);
    TakesShort(reg, n, argv, pos, st, value, k);
    GoesOn(reg, TakeShort(reg, n, argv, pos, st), TakeOption(reg, opts, argv, pos, st), Behind(pos, k),
           Firings(reg, n, text, value, ShortForm(text[0])), Complete(reg, n), UsedBy(n, pos, k), st);
  }

  // ---------- which options a command offers ----------

  /** `d` is a parent of `c`, directly or by way of other parents. */
  ghost predicate Ancestor(reg: Registry, c: nat, d: nat)
    requires Fits(reg) && c < |reg.commands|
    decreases c
  {
    assert CommandFits(reg, c);
    match reg.commands[c].parent
    case None => false
    case Some(p) => p == d || Ancestor(reg, p, d)
  }

  lemma {:induction false} UpwardsExactly(reg: Registry, c: nat, n: nat)
    requires Fits(reg) && c < |reg.commands|
    ensures n in NamedUpwards(reg, c) <==>
            n in NamedOf(reg, c) || exists d :: 0 <= d < |reg.commands| && Ancestor(reg, c, d) && n in NamedOf(reg, d)
    decreases c
  {
    assert CommandFits(reg, c);
    match reg.commands[c].parent
    case None =>
    case Some(p) =>
      UpwardsExactly(reg, p, n);
      if n in NamedOf(reg, p) {
        assert Ancestor(reg, c, p);
      }
      if d :| 0 <= d < |reg.commands| && Ancestor(reg, p, d) && n in NamedOf(reg, d) {
        assert Ancestor(reg, c, d);
      }
      if d :| 0 <= d < |reg.commands| && Ancestor(reg, c, d) && n in NamedOf(reg, d) {
        assert d == p || Ancestor(reg, p, d);
      }
  }

  /** A command searches its own options first, then those of its ancestors if inheriting is enabled, and no others. */
  lemma {:induction false} SearchesOwnFirst(reg: Registry, c: nat, n: nat)
    requires Fits(reg) && c < |reg.commands|
    ensures var own, all := NamedOf(reg, c), A.Options(reg, c);
            && own <= all
            && (n in all <==>
                 || n in own
                 || (&& reg.inheritNamed
                     && exists d :: 0 <= d < |reg.commands| && Ancestor(reg, c, d) && n in NamedOf(reg, d)))
  {
    assert CommandFits(reg, c);
    if reg.commands[c].parent.Some? {
      UpwardsExactly(reg, reg.commands[c].parent.value, n);
      var p := reg.commands[c].parent.value;
      assert Ancestor(reg, c, p);
      assert forall d :: Ancestor(reg, c, d) <==> d == p || Ancestor(reg, p, d);
    }
  }

  // ---------- positional arguments ----------

  /** A positional argument takes the words from `pos` on, and is exhausted by its number of repetitions. */
  lemma {:induction false} TakesWords(
    reg: Registry, p: nat, argv: seq<string>, pos: Position, used: nat, st: ParseState)
    requires Fits(reg) && p < |reg.positional| && AtPosition(argv, pos) && pos.i < |argv|
    requires !StartsWithDash(argv[pos.i])
    requires TakePositional(reg, p, argv, pos, used, st).Done?
    ensures var arg, r := reg.positional[p], TakePositional(reg, p, argv, pos, used, st);
            var k := r.value.0.i - pos.i;
            && k > 0 && r.value.0.i <= |argv| && r.value.0.idx == 0
            && (arg.nvals > 0 ==> k == arg.nvals) && (arg.nvals == OPTIONAL ==> k == 1)
            && (arg.nvals < 0 ==> pos.i + k == |argv| || StartsWithDash(argv[pos.i + k]))
            && (forall i :: pos.i < i < pos.i + k ==> !StartsWithDash(argv[i]))
            && (arg.storeValue ==>
                 |VectorOf(r.st, arg.vector)| >= k && VectorOf(r.st, arg.vector)[..k] == argv[pos.i..pos.i + k])
            && r.st.hooks == st.hooks + (if arg.hasHook then [PositionalHook(p, argv[pos.i..pos.i + k])] else [])
            && Count(r.st, PositionalRef(p)) == Count(st, PositionalRef(p)) + 1
            && r.st.uses == st.uses + [Tokens(PositionalRef(p), pos.i, k, 0)]
            && r.value.1 == used + (if arg.nrepeats == OPTIONAL
                                       || (arg.nrepeats > 0 && Count(st, PositionalRef(p)) + 1 >= arg.nrepeats)
                                           then 1 else 0)
  {
    var args := From(argv, pos.i);
    ParserSpellings.PositionalTakes(reg, p, argv[pos.i], args, st);
    var k := ParsePositional(reg, p, argv[pos.i], args, st).value;
    assert args[..k] == argv[pos.i..pos.i + k];
    assert forall i :: 0 <= i < |args| ==> args[i] == argv[pos.i + i];
  }

  // ---------- the end of a command ----------

  /** A positional argument that a command cannot do without. */
  predicate Required(arg: PositionalArg) {
    (arg.nrepeats > 0 || arg.nrepeats == AT_LEAST_ONE) && arg.nvals != UNLIMITED && arg.nvals != OPTIONAL
  }

  predicate IsMissing(reg: Registry, p: nat, st: ParseState)
    requires p < |reg.positional|
  {
    Required(reg.positional[p]) && Count(st, PositionalRef(p)) == 0
  }

  /** The first missing one is named; none only if none is missing. */
  lemma {:induction false} MissingFirst(reg: Registry, ps: seq<nat>, st: ParseState) returns (j: nat)
    requires forall k :: 0 <= k < |ps| ==> ps[k] < |reg.positional|
    ensures j <= |ps| && (forall k :: 0 <= k < j ==> !IsMissing(reg, ps[k], st))
    ensures if j == |ps| then FirstMissing(reg, ps, st).None?
            else IsMissing(reg, ps[j], st) && FirstMissing(reg, ps, st) == Some(ps[j])
  {
    if ps == [] || IsMissing(reg, ps[0], st) {
      j := 0;
    } else {
      var i := MissingFirst(reg, ps[1..], st);
      j := i + 1;
    }
  }

  /**
   A command ends well exactly when no required positional argument is missing;
   it is counted either way, and its hook is called once, at the very end.
   */
  lemma {:induction false} EndsExactly(
    reg: Registry, c: nat, owner: nat, option: string, words: seq<string>, st: ParseState)
    requires Fits(reg) && c < |reg.commands| && owner < |reg.commands|
    ensures var r, ps := Finish(reg, c, owner, option, words, st), PositionalsOf(reg, c);
            && (r.Done? <==> forall k :: 0 <= k < |ps| ==> !IsMissing(reg, ps[k], st))
            && (r.Threw? ==> exists k :: 0 <= k < |ps| && IsMissing(reg, ps[k], st)
                                         && r.error == MissingPositional(ps[k], reg.commands[c].id))
            && (forall a :: Count(r.st, a) == Count(st, a) + if a == CommandRef(c) then 1 else 0)
            && r.st.options == st.options && r.st.vectors == st.vectors && r.st.selected == st.selected
            && r.st.hooks == st.hooks + (if r.Done? && reg.commands[Body(reg, c)].hasHook
                                         then [CommandHook(owner, option, words)] else [])
  {
    var counted, ps := Bump(st, CommandRef(c)), PositionalsOf(reg, c);
    forall p
      ensures Count(counted, PositionalRef(p)) == Count(st, PositionalRef(p))
    {
    }
    var j := MissingFirst(reg, ps, counted);
    assert forall k :: 0 <= k < |ps| ==> (IsMissing(reg, ps[k], counted) <==> IsMissing(reg, ps[k], st));
    assert st.hooks + [] == st.hooks;
  }

  // ---------- the selected command ----------

  /** The command that the last use by a command belongs to. */
  function LastCommand(uses: seq<Use>, root: nat): nat {
    if uses == [] then root
    else
      match uses[|uses| - 1].arg
      case CommandRef(c) => c
      case _ => LastCommand(uses[..|uses| - 1], root)
  }

  /** The selected command is the one entered last. */
  predicate Tracked(reg: Registry, st: ParseState) {
    st.selected == LastCommand(st.uses, reg.root)
  }

  lemma {:induction false} LogTracked(reg: Registry, st: ParseState, u: Use)
    ensures LastCommand(Log(st, u).uses, reg.root) ==
            match u.arg case CommandRef(c) => c case _ => LastCommand(st.uses, reg.root)
  {
    assert Log(st, u).uses[..|st.uses|] == st.uses;
  }

  /** A step that records no use, or one by an argument, keeps the selected command. */
  lemma {:induction false} ArgumentTracked(reg: Registry, st: ParseState, mid: ParseState, u: Use)
    requires Tracked(reg, st) && mid.uses == st.uses && mid.selected == st.selected && !u.arg.CommandRef?
    ensures Tracked(reg, mid) && Tracked(reg, Log(mid, u)) && Log(mid, u).selected == st.selected
  {
    LogTracked(reg, mid, u);
  }

  lemma {:induction false} TakeLongTracked(reg: Registry, n: nat, argv: seq<string>, pos: Position, st: ParseState)
    requires Sound(reg) && AtPosition(argv, pos) && pos.i < |argv| && IsLong(argv[pos.i]) && n < |reg.named|
    requires Tracked(reg, st)
    ensures var r := TakeLong(reg, n, argv, pos, st); Tracked(reg, r.st) && r.st.selected == st.selected
  {
    var parsed := ParseLong(reg, n, From(argv[pos.i], 2), From(argv, pos.i), st);
    TookLongIs(reg, n, argv, pos, st, parsed);
    if parsed.Done? {
      ArgumentTracked(reg, st, parsed.st, Tokens(NamedRef(n), pos.i, parsed.value, 0));
    }
  }

  lemma {:induction false} TakeShortTracked(reg: Registry, n: nat, argv: seq<string>, pos: Position, st: ParseState)
    requires Sound(reg) && AtLetter(argv, pos) && n < |reg.named| && Tracked(reg, st)
    ensures var r := TakeShort(reg, n, argv, pos, st); Tracked(reg, r.st) && r.st.selected == st.selected
  {
    var parsed := ParseShort(reg, n, From(argv[pos.i], 1 + pos.idx), From(argv, pos.i), st);
    TookShortIs(reg, n, argv, pos, st, parsed);
    if parsed.Done? {
      ArgumentTracked(reg, st, parsed.st, UsedBy(n, pos, parsed.value));
    }
  }

  lemma {:induction false} TakeOptionTracked(
    reg: Registry, opts: seq<nat>, argv: seq<string>, pos: Position, st: ParseState)
    requires Sound(reg) && AtPosition(argv, pos) && pos.i < |argv| && Tracked(reg, st)
    requires forall k :: 0 <= k < |opts| ==> opts[k] < |reg.named|
    ensures var r := TakeOption(reg, opts, argv, pos, st); Tracked(reg, r.st) && r.st.selected == st.selected
  {
    if StartsWithDash(argv[pos.i]) {
      var n := FindOption(reg, opts, argv[pos.i], pos.idx);
      if n.Some? && IsLong(argv[pos.i]) {
        TakeLongTracked(reg, n.value, argv, pos, st);
      } else if n.Some? {
        TakeShortTracked(reg, n.value, argv, pos, st);
      }
    }
  }

  lemma {:induction false} OtherwiseTracked(
    reg: Registry, c: nat, argv: seq<string>, pos: Position, used: nat, st: ParseState)
    requires Sound(reg) && c < |reg.commands| && AtPosition(argv, pos) && pos.i < |argv| && Tracked(reg, st)
    ensures var r := A.Otherwise(reg, c, argv, pos, used, st); Tracked(reg, r.st) && r.st.selected == st.selected
  {
    var ps := PositionalsOf(reg, c);
    if !StartsWithDash(argv[pos.i]) && used < |ps| {
      var parsed := ParsePositional(reg, ps[used], argv[pos.i], From(argv, pos.i), st);
      if parsed.Done? {
        ArgumentTracked(reg, st, parsed.st, Tokens(PositionalRef(ps[used]), pos.i, parsed.value, pos.idx));
      }
    }
  }

  /** The start of a selected command keeps it selected. */
  lemma {:induction false} StartTracked(
    reg: Registry, c: nat, option: string, argv: seq<string>, at: nat, st: ParseState)
    requires Sound(reg) && c < |reg.commands| && at < |argv| && Tracked(reg, st) && st.selected == c
    ensures var r := A.Start(reg, c, option, argv, at, st); Tracked(reg, r.st) && r.st.selected == c
  {
    if reg.commands[c].Alias? && reg.commands[c].required < |argv| - at {
      var required := reg.commands[c].required;
      var fired := FireAlias(reg, c, 0, option, AliasWords(argv, at, required), st);
      if fired.Done? && required > 0 {
        LogTracked(reg, fired.st, Tokens(CommandRef(c), at + 1, required, 0));
      }
    }
  }

  lemma {:induction false} TurnTracked(
    reg: Registry, c: nat, option: string, argv: seq<string>, pos: Position, used: nat, st: ParseState)
    requires Sound(reg) && c < |reg.commands| && AtPosition(argv, pos) && pos.i < |argv| && Tracked(reg, st)
    ensures Tracked(reg, A.Turn(reg, c, option, argv, pos, used, st).st)
    decreases |argv| - pos.i, 0, 3
  {
    match A.Enters(reg, c, argv, pos, st)
    case Some(d) =>
      A.TurnEnters(reg, c, option, argv, pos, used, st);
      DescendTracked(reg, d, argv, pos, st);
    case None =>
      A.TurnCases(reg, c, option, argv, pos, used, st);
      TakeOptionTracked(reg, A.Options(reg, c), argv, pos, st);
      OtherwiseTracked(reg, c, argv, pos, used, st);
  }

  lemma {:induction false} DescendTracked(reg: Registry, d: nat, argv: seq<string>, pos: Position, st: ParseState)
    requires Sound(reg) && d < |reg.commands| && AtPosition(argv, pos) && pos.i < |argv|
    ensures Tracked(reg, Descend(reg, d, argv, pos, st).st)
    decreases |argv| - pos.i, 0, 2
  {
    var u := Tokens(CommandRef(d), pos.i, 1, pos.idx);
    LogTracked(reg, st, u);
    ParseTracked(reg, d, argv[pos.i], argv, pos.i, Log(st, u).(selected := d));
  }

  lemma {:induction false} ParseTracked(
    reg: Registry, c: nat, option: string, argv: seq<string>, at: nat, st: ParseState)
    requires Sound(reg) && c < |reg.commands| && at < |argv| && Tracked(reg, st) && st.selected == c
    ensures Tracked(reg, ParseCommand(reg, c, option, argv, at, st).st)
    decreases |argv| - at, 0, 1
  {
    A.ParseSteps(reg, c, option, argv, at, st);
    StartTracked(reg, c, option, argv, at, st);
    var start := A.Start(reg, c, option, argv, at, st);
    if start.Done? {
      LoopTracked(reg, c, option, argv, start.value, 0, start.st);
      var loop := A.Loop(reg, c, option, argv, start.value, 0, start.st);
      if loop.Done? {
        EndsExactly(reg, c, A.Owner(reg, c), option, From(argv, at), loop.st);
      }
    }
  }

  lemma {:induction false} LoopTracked(
    reg: Registry, c: nat, option: string, argv: seq<string>, pos: Position, used: nat, st: ParseState)
    requires Sound(reg) && c < |reg.commands| && AtPosition(argv, pos) && Tracked(reg, st)
    ensures Tracked(reg, A.Loop(reg, c, option, argv, pos, used, st).st)
    decreases |argv| - pos.i, 1, LettersLeft(argv, pos)
  {
    A.LoopStep(reg, c, option, argv, pos, used, st);
    if pos.i < |argv| {
      TurnTracked(reg, c, option, argv, pos, used, st);
      var turn := A.Turn(reg, c, option, argv, pos, used, st);
      if turn.Done? {
        LoopTracked(reg, c, option, argv, turn.value.0, turn.value.1, turn.st);
      }
    }
  }

  /** After a parse, also one that throws, the selected command is the last one the line entered, or the root. */
  lemma {:induction false} SelectsLastEntered(reg: Registry, argv: seq<string>, st: ParseState)
    requires Sound(reg) && |argv| > 0 && st.uses == []
    ensures Tracked(reg, ParseArgv(reg, argv, st).st)
  {
    ParseTracked(reg, reg.root, argv[0], argv, 0, st.(selected := reg.root));
  }
}
