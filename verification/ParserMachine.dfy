/**
 The argument parser as the object it is: parse calls update the counters, the
 linked values and the selected command in place, step by step. Each method is
 proved to leave the state, and to return or throw, as module Parser says.
 */
module ParserMachine {
  import opened Wrappers
  import opened Registry
  import opened Templates
  import P = Parser

  type ParseError = P.ParseError

  class ArgumentParser {
    var reg: Registry
    var counts: map<Arg, nat>
    var options: map<nat, string>
    var vectors: map<nat, seq<string>>
    var hooks: seq<P.HookCall>
    var uses: seq<P.Use>
    var selected: nat

    constructor (reg: Registry)
      ensures this.reg == reg && View() == P.ParseState(map[], map[], map[], [], [], reg.root)
    {
      this.reg := reg;
      counts, options, vectors, hooks, uses, selected := map[], map[], map[], [], [], reg.root;
    }

    ghost function View(): P.ParseState
      reads this
    {
      P.ParseState(counts, options, vectors, hooks, uses, selected)
    }

    /** What a call that ended with `r` in the current state amounts to. */
    ghost function Outcome<T>(r: Result<T, ParseError>): P.Outcome<T>
      reads this
    {
      match r
      case Ok(v) => P.Done(v, View())
      case Err(e) => P.Threw(e, View())
    }

    // ---------- conflicts ----------

    /** add_conflict_argument */
    method AddConflictArgument(a: Arg, b: Arg)
      modifies this`reg
      ensures reg == old(reg).(conflicts := AddConflict(old(reg.conflicts), a, b))
      ensures Symmetric(old(reg.conflicts)) ==> Symmetric(reg.conflicts)
    {
      AddOneConflict(a, b);
      AddOneConflict(b, a);
    }

    method AddOneConflict(a: Arg, b: Arg)
      modifies this`reg
      ensures reg == old(reg).(conflicts := AddOneWay(old(reg.conflicts), a, b))
    {
      var list := if a in reg.conflicts then reg.conflicts[a] else [];
      var i := 0;
      while i < |list| && list[i] != b
        invariant i <= |list| && b !in list[..i]
      {
        i := i + 1;
      }
      assert list == list[..i] + list[i..];
      if i == |list| {
        reg := reg.(conflicts := reg.conflicts[a := list + [b]]);
      }
    }

    /** add_conflict_arguments_from_another: the bound is read again on every turn. */
    method AddConflictArgumentsFrom(a: Arg, src: Arg)
      modifies this`reg
      ensures reg == old(reg).(conflicts := CopyConflicts(old(reg.conflicts), a, src, 0))
      ensures Symmetric(old(reg.conflicts)) ==> Symmetric(reg.conflicts)
    {
      if a != src {
        CopyConflictsLoop(a, src);
      }
      if Symmetric(old(reg.conflicts)) {
        CopyConflictsKeepsSymmetry(old(reg.conflicts), a, src);
      }
    }

    method CopyConflictsLoop(a: Arg, src: Arg)
      requires a != src
      modifies this`reg
      ensures reg == old(reg).(conflicts := CopyConflicts(old(reg.conflicts), a, src, 0))
    {
      var idx := 0;
      while idx < |ConflictsOf(reg.conflicts, src)|
        invariant ConflictsOf(reg.conflicts, src) == old(ConflictsOf(reg.conflicts, src))
        invariant idx <= |ConflictsOf(reg.conflicts, src)|
        invariant reg == old(reg).(conflicts := reg.conflicts)
        invariant CopyConflicts(reg.conflicts, a, src, idx) == CopyConflicts(old(reg.conflicts), a, src, 0)
      {
        CopyConflictsTurn(reg.conflicts, a, src, idx);
        var conflict := ConflictsOf(reg.conflicts, src)[idx];
        if conflict != a && conflict != src {
          AddConflictArgument(a, conflict);
        }
        idx := idx + 1;
      }
    }

    method GetConflictArgument(a: Arg) returns (r: Option<Arg>)
      ensures r == P.ConflictOf(reg, View(), a)
    {
      var list := ConflictsOf(reg.conflicts, a);
      var i := 0;
      while i < |list|
        invariant i <= |list|
        invariant P.FirstParsed(View(), a, list[i..]) == P.FirstParsed(View(), a, list)
      {
        if list[i] != a && list[i] in counts && counts[list[i]] > 0 {
          return Some(list[i]);
        }
        assert list[i..][1..] == list[i + 1..];
        i := i + 1;
      }
      return None;
    }

    method CountOne(a: Arg)
      modifies this`counts
      ensures View() == P.Bump(old(View()), a)
    {
      counts := counts[a := 1 + if a in counts then counts[a] else 0];
    }

    // ---------- named arguments ----------

    method AcceptNamed(n: nat, option: string, value: string)
      requires n < |reg.named|
      modifies this`counts, this`options, this`hooks
      ensures View() == P.Accept(reg, n, option, value, old(View()))
    {
      var arg := reg.named[n];
      if arg.storeValue && arg.option.Some? {
        options := options[arg.option.value := value];
      }
      CountOne(NamedRef(n));
      if arg.hasHook {
        hooks := hooks + [P.NamedHook(n, option, value)];
      }
    }

    method ParseLong(n: nat, option: string, args: seq<string>) returns (r: Result<nat, ParseError>)
      requires Sound(reg) && n < |reg.named| && |args| > 0
      modifies this`counts, this`options, this`hooks
      ensures Outcome(r) == P.ParseLong(reg, n, option, args, old(View()))
      decreases n, 1
    {
      var other := GetConflictArgument(NamedRef(n));
      if other.Some? {
        return Err(P.Conflicting("--" + option, other.value));
      }
      var taken := P.LongValue(reg.named[n], option, args);
      if taken.Err? {
        return Err(taken.error);
      }
      AcceptNamed(n, option, taken.value.0);
      var fired := FireLong(n, P.OptionName(option), taken.value.0);
      r := if fired.Ok? then Ok(taken.value.1) else Err(fired.error);
    }

    /** Invokes the attached named arguments of `n` in their long form. */
    method FireLong(n: nat, name: string, value: string) returns (r: Result<(), ParseError>)
      requires Sound(reg) && n < |reg.named|
      modifies this`counts, this`options, this`hooks
      ensures Outcome(r) == P.FireLong(reg, n, 0, name, value, old(View()))
      decreases n, 0, 1
    {
      ghost var owned, start := reg, View();
      var k := 0;
      while k < |reg.named[n].attached|
        invariant reg == owned && k <= |owned.named[n].attached|
        invariant P.FireLong(owned, n, k, name, value, View()) == P.FireLong(owned, n, 0, name, value, start)
      {
        var fired := FireOneLong(n, k, name, value);
        if fired.Err? {
          return Err(fired.error);
        }
        k := k + 1;
      }
      return Ok(());
    }

    method FireOneLong(n: nat, k: nat, name: string, value: string) returns (r: Result<nat, ParseError>)
      requires Sound(reg) && n < |reg.named| && k < |reg.named[n].attached|
      modifies this`counts, this`options, this`hooks
      ensures Outcome(r) == P.FireOneLong(reg, n, k, name, value, old(View()))
      decreases n, 0, 0
    {
      var attached := reg.named[n].attached[k];
      var target := Resolve(reg, attached.idPath);
      if target.None? {
        return Err(P.NotFound(attached.idPath));
      }
      var long := name;
      if reg.named[target.value].hasValue {
        var text, _ := ReplaceAllInPlace(attached.value, "${}", value);
        long := name + "=" + text;
      }
      r := ParseLong(target.value, long, [long]);
    }

    method ParseShort(n: nat, option: string, args: seq<string>) returns (r: Result<nat, ParseError>)
      requires Sound(reg) && n < |reg.named| && |args| > 0 && |option| > 0
      modifies this`counts, this`options, this`hooks
      ensures Outcome(r) == P.ParseShort(reg, n, option, args, old(View()))
      decreases n, 1
    {
      var other := GetConflictArgument(NamedRef(n));
      if other.Some? {
        return Err(P.Conflicting("-" + option, other.value));
      }
      var taken := P.ShortValue(reg.named[n], option, args);
      if taken.Err? {
        return Err(taken.error);
      }
      AcceptNamed(n, option, taken.value.0);
      var fired := FireShort(n, option[0], taken.value.0);
      r := if fired.Ok? then Ok(taken.value.1) else Err(fired.error);
    }

    /** Invokes the attached named arguments of `n` in their short form. */
    method FireShort(n: nat, letter: char, value: string) returns (r: Result<(), ParseError>)
      requires Sound(reg) && n < |reg.named|
      modifies this`counts, this`options, this`hooks
      ensures Outcome(r) == P.FireShort(reg, n, 0, letter, value, old(View()))
      decreases n, 0, 1
    {
      ghost var owned, start := reg, View();
      var k := 0;
      while k < |reg.named[n].attached|
        invariant reg == owned && k <= |owned.named[n].attached|
        invariant P.FireShort(owned, n, k, letter, value, View()) == P.FireShort(owned, n, 0, letter, value, start)
      {
        var fired := FireOneShort(n, k, letter, value);
        if fired.Err? {
          return Err(fired.error);
        }
        k := k + 1;
      }
      return Ok(());
    }

    method FireOneShort(n: nat, k: nat, letter: char, value: string) returns (r: Result<nat, ParseError>)
      requires Sound(reg) && n < |reg.named| && k < |reg.named[n].attached|
      modifies this`counts, this`options, this`hooks
      ensures Outcome(r) == P.FireOneShort(reg, n, k, letter, value, old(View()))
      decreases n, 0, 0
    {
      var attached := reg.named[n].attached[k];
      var target := Resolve(reg, attached.idPath);
      if target.None? {
        return Err(P.NotFound(attached.idPath));
      }
      var words := [[letter]];
      if reg.named[target.value].hasValue {
        var text, _ := ReplaceAllInPlace(attached.value, "${}", value);
        words := [[letter], text];
      }
      r := ParseShort(target.value, [letter], words);
    }

    // ---------- positional arguments ----------

    method CountUsable(args: seq<string>) returns (usable: nat)
      requires |args| > 0
      ensures usable == P.Usable(args, 1)
    {
      usable := 1;
      while usable < |args| && !P.StartsWithDash(args[usable])
        invariant usable <= |args| && P.Usable(args, usable) == P.Usable(args, 1)
      {
        usable := usable + 1;
      }
    }

    method StoreInto(v: nat, values: seq<string>)
      modifies this`vectors
      ensures vectors == old(vectors)[v := P.StoreValues(P.VectorOf(old(View()), v), values)]
    {
      ghost var held := P.VectorOf(View(), v);
      var vector := if v in vectors then vectors[v] else [];
      var i := 0;
      assert values[..0] == [] && P.StoreValues(held, []) == held;
      while i < |values|
        invariant i <= |values| && vectors == old(vectors)
        invariant vector == P.StoreValues(held, values[..i])
      {
        P.StoreNext(held, values, i);
        if |vector| <= i {
          vector := vector + [values[i]];
        } else {
          vector := vector[i := values[i]];
        }
        i := i + 1;
      }
      assert values[..i] == values;
      vectors := vectors[v := vector];
    }

    method ParsePositional(p: nat, option: string, args: seq<string>) returns (r: Result<nat, ParseError>)
      requires Fits(reg) && p < |reg.positional| && |args| > 0
      modifies this`counts, this`vectors, this`hooks
      ensures Outcome(r) == P.ParsePositional(reg, p, option, args, old(View()))
    {
      var other := GetConflictArgument(PositionalRef(p));
      if other.Some? {
        return Err(P.Conflicting(option, other.value));
      }
      var arg := reg.positional[p];
      if |args| < arg.nvals {
        return Err(P.TooFewValues(p));
      }
      var k := 1;
      while k < arg.nvals
        invariant 1 <= k && (arg.nvals >= 1 ==> k <= arg.nvals)
        invariant forall j :: 1 <= j < k && j < arg.nvals ==> !P.StartsWithDash(args[j])
      {
        if P.StartsWithDash(args[k]) {
          return Err(P.TooFewValues(p));
        }
        k := k + 1;
      }
      var count := arg.nvals;
      if arg.nvals <= 0 {
        count := CountUsable(args);
        if arg.nvals == OPTIONAL {
          count := 1;
        }
      }
      if arg.storeValue {
        StoreInto(arg.vector, args[..count]);
      }
      CountOne(PositionalRef(p));
      if arg.hasHook {
        hooks := hooks + [P.PositionalHook(p, args[..count])];
      }
      return Ok(count);
    }

    // ---------- commands ----------

    /** Records who took which part of argv. */
    method LogUse(u: P.Use)
      modifies this`uses
      ensures View() == P.Log(old(View()), u)
    {
      uses := uses + [u];
    }

    method TakeLong(n: nat, argv: seq<string>, pos: P.Position) returns (r: Result<P.Position, ParseError>)
      requires Sound(reg) && P.AtPosition(argv, pos) && pos.i < |argv| && P.IsLong(argv[pos.i]) && n < |reg.named|
      modifies this`counts, this`options, this`hooks, this`uses
      ensures Outcome(r) == P.TakeLong(reg, n, argv, pos, old(View()))
    {
      ghost var st := View();
      var taken := ParseLong(n, P.From(argv[pos.i], 2), P.From(argv, pos.i));
      r := MoveLong(n, argv, pos, taken, st);
    }

    method MoveLong(n: nat, argv: seq<string>, pos: P.Position, taken: Result<nat, ParseError>, ghost st: P.ParseState)
      returns (r: Result<P.Position, ParseError>)
      requires Fits(reg) && P.Parsed(reg, argv, pos, st, Outcome(taken)) && P.IsLong(argv[pos.i])
               && (taken.Ok? ==> taken.value > 0)
      modifies this`uses
      ensures Outcome(r) == P.TookLong(reg, n, argv, pos, st, old(Outcome(taken)))
    {
      if taken.Err? {
        return Err(taken.error);
      }
      LogUse(P.Tokens(NamedRef(n), pos.i, taken.value, pos.idx));
      return Ok(P.Position(pos.i + taken.value, pos.idx));
    }

    method TakeShort(n: nat, argv: seq<string>, pos: P.Position) returns (r: Result<P.Position, ParseError>)
      requires Sound(reg) && P.AtPosition(argv, pos) && pos.i < |argv| && n < |reg.named|
      requires P.StartsWithDash(argv[pos.i]) && !P.IsLong(argv[pos.i]) && 1 + pos.idx < |argv[pos.i]|
      modifies this`counts, this`options, this`hooks, this`uses
      ensures Outcome(r) == P.TakeShort(reg, n, argv, pos, old(View()))
    {
      ghost var st := View();
      var taken := ParseShort(n, P.From(argv[pos.i], 1 + pos.idx), P.From(argv, pos.i));
      r := MoveShort(n, argv, pos, taken, st);
    }

    method MoveShort(n: nat, argv: seq<string>, pos: P.Position, taken: Result<nat, ParseError>, ghost st: P.ParseState)
      returns (r: Result<P.Position, ParseError>)
      requires Fits(reg) && P.Parsed(reg, argv, pos, st, Outcome(taken))
      requires P.StartsWithDash(argv[pos.i]) && !P.IsLong(argv[pos.i]) && 1 + pos.idx < |argv[pos.i]|
      requires taken.Ok? && taken.value == 0 ==> 2 + pos.idx < |argv[pos.i]|
      modifies this`uses
      ensures Outcome(r) == P.TookShort(reg, n, argv, pos, st, old(Outcome(taken)))
    {
      if taken.Err? {
        return Err(taken.error);
      }
      var use := if taken.value > 0 then P.Tokens(NamedRef(n), pos.i, taken.value, pos.idx)
                 else P.ClusterChar(NamedRef(n), pos.i, pos.idx);
      LogUse(use);
      return Ok(P.After(use));
    }

    method SearchOption(opts: seq<nat>, token: string, idx: nat) returns (r: Option<nat>)
      requires P.StartsWithDash(token)
      requires forall k :: 0 <= k < |opts| ==> opts[k] < |reg.named|
      ensures r == P.FindOption(reg, opts, token, idx)
    {
      var k := 0;
      while k < |opts|
        invariant k <= |opts|
        invariant P.FindOption(reg, opts[k..], token, idx) == P.FindOption(reg, opts, token, idx)
      {
        if P.MatchesOption(reg.named[opts[k]], token, idx) {
          return Some(opts[k]);
        }
        assert opts[k..][1..] == opts[k + 1..];
        k := k + 1;
      }
      return None;
    }

    method TakeOption(opts: seq<nat>, argv: seq<string>, pos: P.Position)
      returns (r: Result<Option<P.Position>, ParseError>)
      requires Sound(reg) && P.AtPosition(argv, pos) && pos.i < |argv|
      requires forall k :: 0 <= k < |opts| ==> opts[k] < |reg.named|
      modifies this`counts, this`options, this`hooks, this`uses
      ensures Outcome(r) == P.TakeOption(reg, opts, argv, pos, old(View()))
    {
      if !P.StartsWithDash(argv[pos.i]) {
        return Ok(None);
      }
      var n := SearchOption(opts, argv[pos.i], pos.idx);
      if n.None? {
        return Ok(None);
      }
      var taken: Result<P.Position, ParseError>;
      if P.IsLong(argv[pos.i]) {
        taken := TakeLong(n.value, argv, pos);
      } else {
        taken := TakeShort(n.value, argv, pos);
      }
      r := if taken.Ok? then Ok(Some(taken.value)) else Err(taken.error);
    }

    method TakePositional(p: nat, argv: seq<string>, pos: P.Position, used: nat)
      returns (r: Result<(P.Position, nat), ParseError>)
      requires Fits(reg) && p < |reg.positional| && P.AtPosition(argv, pos) && pos.i < |argv|
      requires !P.StartsWithDash(argv[pos.i])
      modifies this`counts, this`vectors, this`hooks, this`uses
      ensures Outcome(r) == P.TakePositional(reg, p, argv, pos, used, old(View()))
    {
      var taken := ParsePositional(p, argv[pos.i], P.From(argv, pos.i));
      if taken.Err? {
        return Err(taken.error);
      }
      LogUse(P.Tokens(PositionalRef(p), pos.i, taken.value, pos.idx));
      var nrepeats, times :=
          reg.positional[p].nrepeats, if PositionalRef(p) in counts then counts[PositionalRef(p)] else 0;
      var exhausted := (nrepeats > 0 && times >= nrepeats) || nrepeats == OPTIONAL;
      return Ok((P.Position(pos.i + taken.value, pos.idx), if exhausted then used + 1 else used));
    }

    method Descend(d: nat, argv: seq<string>, pos: P.Position) returns (r: Result<(), ParseError>)
      requires Sound(reg) && d < |reg.commands| && P.AtPosition(argv, pos) && pos.i < |argv|
      modifies this`counts, this`options, this`vectors, this`hooks, this`uses, this`selected
      ensures Outcome(r) == P.Descend(reg, d, argv, pos, old(View()))
      decreases |argv| - pos.i, 0, 2
    {
      selected, uses := d, uses + [P.Tokens(CommandRef(d), pos.i, 1, pos.idx)];
      r := ParseCommand(d, argv[pos.i], argv, pos.i);
    }

    method Finish(c: nat, hookOwner: nat, option: string, argv: seq<string>) returns (r: Result<(), ParseError>)
      requires Fits(reg) && c < |reg.commands| && hookOwner < |reg.commands|
      modifies this`counts, this`hooks
      ensures Outcome(r) == P.Finish(reg, c, hookOwner, option, argv, old(View()))
    {
      CountOne(CommandRef(c));
      var ps := PositionalsOf(reg, c);
      var k := 0;
      while k < |ps|
        invariant k <= |ps|
        invariant P.FirstMissing(reg, ps[k..], View()) == P.FirstMissing(reg, ps, View())
      {
        var arg := reg.positional[ps[k]];
        var given := PositionalRef(ps[k]) in counts && counts[PositionalRef(ps[k])] > 0;
        if (arg.nrepeats > 0 || arg.nrepeats == AT_LEAST_ONE) && !given && arg.nvals != UNLIMITED
            && arg.nvals != OPTIONAL {
          return Err(P.MissingPositional(ps[k], reg.commands[c].id));
        }
        assert ps[k..][1..] == ps[k + 1..];
        k := k + 1;
      }
      if reg.commands[Body(reg, c)].hasHook {
        hooks := hooks + [P.CommandHook(hookOwner, option, argv)];
      }
      return Ok(());
    }

    method ParseCommand(c: nat, option: string, argv: seq<string>, at: nat) returns (r: Result<(), ParseError>)
      requires Sound(reg) && c < |reg.commands| && at < |argv|
      modifies this`counts, this`options, this`vectors, this`hooks, this`uses, this`selected
      ensures Outcome(r) == P.ParseCommand(reg, c, option, argv, at, old(View()))
      decreases |argv| - at, 0, 1
    {
      if reg.commands[c].Ordinary? {
        r := ParseOrdinary(c, option, argv, at);
      } else {
        r := ParseAlias(c, option, argv, at);
      }
    }

    /** One turn of the loop in CommandOrdinary::parse. */
    method OrdinaryTurn(c: nat, option: string, argv: seq<string>, pos: P.Position, used: nat)
      returns (r: Result<(P.Position, nat), ParseError>)
      requires Sound(reg) && c < |reg.commands| && reg.commands[c].Ordinary? && P.AtPosition(argv, pos)
      requires pos.i < |argv|
      modifies this`counts, this`options, this`vectors, this`hooks, this`uses, this`selected
      ensures Outcome(r) == P.OrdinaryTurn(reg, c, option, argv, pos, used, old(View()))
      decreases |argv| - pos.i, 0, 3
    {
      assert CommandFits(reg, c);
      var opts, subs, ps := Searchable(reg, c), CommandsOf(reg, c), PositionalsOf(reg, c);
      var turn := TakeOption(opts, argv, pos);
      if turn.Err? {
        return Err(turn.error);
      }
      if turn.value.Some? {
        return Ok((turn.value.value, used));
      }
      var sub := FindCommand(reg, subs, argv[pos.i]);
      if sub.Some? {
        var other := GetConflictArgument(CommandRef(c));
        if other.Some? {
          return Err(P.Conflicting(option, other.value));
        }
        var below := Descend(sub.value, argv, pos);
        return if below.Ok? then Ok((P.Position(|argv|, 0), used)) else Err(below.error);
      }
      if !P.StartsWithDash(argv[pos.i]) && used < |ps| {
        r := TakePositional(ps[used], argv, pos, used);
      } else {
        r := Err(P.UnknownArgument(reg.commands[c].id, P.UnusedText(argv[pos.i], pos.idx)));
      }
    }

    /** One turn of the loop in CommandAlias::parse. */
    method AliasTurn(c: nat, option: string, argv: seq<string>, pos: P.Position, used: nat)
      returns (r: Result<(P.Position, nat), ParseError>)
      requires Sound(reg) && c < |reg.commands| && reg.commands[c].Alias? && P.AtPosition(argv, pos) && pos.i < |argv|
      modifies this`counts, this`options, this`vectors, this`hooks, this`uses, this`selected
      ensures Outcome(r) == P.AliasTurn(reg, c, option, argv, pos, used, old(View()))
      decreases |argv| - pos.i, 0, 3
    {
      assert CommandFits(reg, c);
      var target := reg.commands[c].target;
      var opts, subs, ps := SearchableByAlias(reg, c), CommandsOf(reg, target), PositionalsOf(reg, target);
      var turn := TakeOption(opts, argv, pos);
      if turn.Err? {
        return Err(turn.error);
      }
      if turn.value.Some? {
        return Ok((turn.value.value, used));
      }
      var sub := FindCommand(reg, subs, argv[pos.i]);
      if sub.Some? {
        var other := GetConflictArgument(CommandRef(c));
        if other.Some? {
          return Err(P.Conflicting(option, other.value));
        }
        var below := Descend(sub.value, argv, pos);
        return if below.Ok? then Ok((P.Position(|argv|, 0), used)) else Err(below.error);
      }
      if !P.StartsWithDash(argv[pos.i]) && used < |ps| {
        r := TakePositional(ps[used], argv, pos, used);
      } else {
        r := Err(P.UnknownArgument(reg.commands[c].id, argv[pos.i]));
      }
    }

    /** CommandOrdinary::parse */
    method ParseOrdinary(c: nat, option: string, argv: seq<string>, at: nat) returns (r: Result<(), ParseError>)
      requires Sound(reg) && c < |reg.commands| && reg.commands[c].Ordinary? && at < |argv|
      modifies this`counts, this`options, this`vectors, this`hooks, this`uses, this`selected
      ensures Outcome(r) == P.ParseOrdinary(reg, c, option, argv, at, old(View()))
      decreases |argv| - at, 0, 0
    {
      var looped := RunOrdinary(c, option, argv, P.Position(at + 1, 0));
      if looped.Err? {
        return Err(looped.error);
      }
      r := Finish(c, c, option, P.From(argv, at));
    }

    /** The loop of CommandOrdinary::parse. */
    method RunOrdinary(c: nat, option: string, argv: seq<string>, start: P.Position) returns (r: Result<(), ParseError>)
      requires Sound(reg) && c < |reg.commands| && reg.commands[c].Ordinary? && P.AtPosition(argv, start)
      modifies this`counts, this`options, this`vectors, this`hooks, this`uses, this`selected
      ensures Outcome(r) == P.OrdinaryLoop(reg, c, option, argv, start, 0, old(View()))
      decreases |argv| - start.i, 1, 0
    {
      var pos, used := start, 0;
      while pos.i < |argv|
        invariant P.AtPosition(argv, pos) && start.i <= pos.i
        invariant P.OrdinaryLoop(reg, c, option, argv, pos, used, View())
               == P.OrdinaryLoop(reg, c, option, argv, start, 0, old(View()))
        decreases |argv| - pos.i, P.LettersLeft(argv, pos)
      {
        var turn := OrdinaryTurn(c, option, argv, pos, used);
        if turn.Err? {
          return Err(turn.error);
        }
        pos, used := turn.value.0, turn.value.1;
      }
      return Ok(());
    }

    /** CommandAlias::parse */
    method ParseAlias(c: nat, option: string, argv: seq<string>, at: nat) returns (r: Result<(), ParseError>)
      requires Sound(reg) && c < |reg.commands| && reg.commands[c].Alias? && at < |argv|
      modifies this`counts, this`options, this`vectors, this`hooks, this`uses, this`selected
      ensures Outcome(r) == P.ParseAlias(reg, c, option, argv, at, old(View()))
      decreases |argv| - at, 0, 0
    {
      assert CommandFits(reg, c);
      var started := StartAlias(c, option, argv, at);
      if started.Err? {
        return Err(started.error);
      }
      var looped := RunAlias(c, option, argv, started.value);
      if looped.Err? {
        return Err(looped.error);
      }
      r := Finish(c, reg.commands[c].target, option, P.From(argv, at));
    }

    method StartAlias(c: nat, option: string, argv: seq<string>, at: nat) returns (r: Result<P.Position, ParseError>)
      requires Sound(reg) && c < |reg.commands| && reg.commands[c].Alias? && at < |argv|
      modifies this`counts, this`options, this`hooks, this`uses
      ensures Outcome(r) == P.AliasStart(reg, c, option, argv, at, old(View()))
    {
      var required := reg.commands[c].required;
      if |argv| - at <= required {
        return Err(P.MissingValue(option));
      }
      ghost var st := View();
      var fired := FireAttached(c, option, P.AliasWords(argv, at, required));
      r := TakeRequired(c, required, at, fired, st);
    }

    method TakeRequired(c: nat, required: nat, at: nat, fired: Result<(), ParseError>, ghost st: P.ParseState)
      returns (r: Result<P.Position, ParseError>)
      requires Fits(reg) && P.Proper(reg, st, Outcome(fired)) && uses == st.uses
      modifies this`uses
      ensures Outcome(r) == P.Started(reg, c, required, at, st, old(Outcome(fired)))
    {
      if fired.Err? {
        return Err(fired.error);
      }
      LogRequired(c, required, at);
      return Ok(P.Position(at + 1 + required, 0));
    }

    method LogRequired(c: nat, required: nat, at: nat)
      modifies this`uses
      ensures View() == P.LogRequired(reg, c, required, at, old(View()))
    {
      if required > 0 {
        LogUse(P.Tokens(CommandRef(c), at + 1, required, 0));
      }
    }

    /** The loop of CommandAlias::parse. */
    method RunAlias(c: nat, option: string, argv: seq<string>, start: P.Position) returns (r: Result<(), ParseError>)
      requires Sound(reg) && c < |reg.commands| && reg.commands[c].Alias? && P.AtPosition(argv, start)
      modifies this`counts, this`options, this`vectors, this`hooks, this`uses, this`selected
      ensures Outcome(r) == P.AliasLoop(reg, c, option, argv, start, 0, old(View()))
      decreases |argv| - start.i, 1, 0
    {
      var pos, used := start, 0;
      while pos.i < |argv|
        invariant P.AtPosition(argv, pos) && start.i <= pos.i
        invariant P.AliasLoop(reg, c, option, argv, pos, used, View())
               == P.AliasLoop(reg, c, option, argv, start, 0, old(View()))
        decreases |argv| - pos.i, P.LettersLeft(argv, pos)
      {
        var turn := AliasTurn(c, option, argv, pos, used);
        if turn.Err? {
          return Err(turn.error);
        }
        pos, used := turn.value.0, turn.value.1;
      }
      return Ok(());
    }

    method FireAttached(c: nat, option: string, words: seq<string>) returns (r: Result<(), ParseError>)
      requires Sound(reg) && c < |reg.commands| && reg.commands[c].Alias?
      modifies this`counts, this`options, this`hooks
      ensures Outcome(r) == P.FireAlias(reg, c, 0, option, words, old(View()))
    {
      ghost var owned, start := reg, View();
      var k := 0;
      while k < |reg.commands[c].attached|
        invariant reg == owned && k <= |owned.commands[c].attached|
        invariant P.FireAlias(owned, c, k, option, words, View()) == P.FireAlias(owned, c, 0, option, words, start)
      {
        ghost var st := View();
        var fired := FireOneAttached(c, k, option, words);
        P.FireAliasTurn(owned, c, k, option, words, st);
        if fired.Err? {
          return Err(fired.error);
        }
        k := k + 1;
      }
      return Ok(());
    }

    method FireOneAttached(c: nat, k: nat, option: string, words: seq<string>) returns (r: Result<nat, ParseError>)
      requires Sound(reg) && c < |reg.commands| && reg.commands[c].Alias? && k < |reg.commands[c].attached|
      modifies this`counts, this`options, this`hooks
      ensures Outcome(r) == P.FireOneAlias(reg, c, k, option, words, old(View()))
    {
      var attached := reg.commands[c].attached[k];
      var target := Resolve(reg, attached.idPath);
      r := FireTarget(attached, target, option, words);
    }

    method FireTarget(attached: Attached, target: Option<nat>, option: string, words: seq<string>)
      returns (r: Result<nat, ParseError>)
      requires Sound(reg) && (target.Some? ==> target.value < |reg.named|)
      modifies this`counts, this`options, this`hooks
      ensures Outcome(r) == P.FireTarget(reg, attached, target, option, words, old(View()))
    {
      if target.None? {
        return Err(P.NotFound(attached.idPath));
      }
      var args := WordsFor(target.value, attached.value, option, words);
      if args.Err? {
        return Err(P.IndexOutOfRange(args.error));
      }
      r := ParseLong(target.value, option, args.value);
    }

    method WordsFor(m: nat, text: string, option: string, words: seq<string>) returns (r: Result<seq<string>, string>)
      requires m < |reg.named|
      ensures r == P.AttachedWords(reg, m, text, option, words)
    {
      if !reg.named[m].hasValue {
        return Ok([option]);
      }
      var value := FormatStringLoop(text, words);
      r := if value.Ok? then Ok([option, value.value]) else Err(value.error);
    }

    /** ArgumentParser::parse */
    method Parse(argv: seq<string>) returns (r: Result<(), ParseError>)
      requires Sound(reg) && |argv| > 0
      modifies this`counts, this`options, this`vectors, this`hooks, this`uses, this`selected
      ensures Outcome(r) == P.ParseArgv(reg, argv, old(View()))
      ensures P.Evolves(reg, old(View()), View())
      ensures r.Ok? ==> P.Consumes(old(View()), View(), P.Position(1, 0), P.Position(|argv|, 0))
    {
      selected := reg.root;
      r := ParseCommand(reg.root, argv[0], argv, 0);
    }
  }
}
