/**
 What parsing a command line computes, outside completion mode: the state a
 parse leaves behind and whether it returns or throws. A throw keeps the
 changes made before it.
 */
module Parser {
  import opened Wrappers
  import opened Registry
  import opened Templates

  // ---------- state ----------

  /** A call of a parse hook. */
  datatype HookCall =
    | NamedHook(n: nat, option: string, value: string)
    | PositionalHook(p: nat, values: seq<string>)
    | CommandHook(c: nat, option: string, argv: seq<string>)

  /** Who took which part of argv: whole tokens from `first` on, or one character of a cluster. */
  datatype Use =
    | Tokens(arg: Arg, first: nat, len: nat, idx: nat)
    | ClusterChar(arg: Arg, first: nat, idx: nat)

  datatype ParseState = ParseState(
    counts: map<Arg, nat>,
    options: map<nat, string>,
    vectors: map<nat, seq<string>>,
    hooks: seq<HookCall>,
    uses: seq<Use>,
    selected: nat)

  datatype ParseError =
    | Conflicting(option: string, other: Arg)
    | MissingValue(option: string)
    | UnexpectedValue(option: string)
    | TooFewValues(p: nat)
    | UnknownArgument(commandId: string, text: string)
    | MissingPositional(p: nat, commandId: string)
    | NotFound(idPath: string)
    | IndexOutOfRange(text: string)

  datatype Outcome<+T> =
    | Done(value: T, st: ParseState)
    | Threw(error: ParseError, st: ParseState)

  function Count(st: ParseState, a: Arg): nat {
    if a in st.counts then st.counts[a] else 0
  }

  function Bump(st: ParseState, a: Arg): ParseState {
    st.(counts := st.counts[a := Count(st, a) + 1])
  }

  // ---------- what every step keeps ----------

  /** No two different conflicting named or positional arguments have both been parsed. */
  ghost predicate Apart(reg: Registry, st: ParseState) {
    forall a, b :: Clash(reg.conflicts, a, b) && a != b && !a.CommandRef? && !b.CommandRef? ==>
      !(Count(st, a) > 0 && Count(st, b) > 0)
  }

  /**
   Counts never fall; conflicting arguments stay apart. As counts never fall,
   arguments that are apart at the end were apart at every moment before.
   */
  ghost predicate Evolves(reg: Registry, st: ParseState, next: ParseState) {
    && (forall a :: Count(st, a) <= Count(next, a))
    && (Symmetric(reg.conflicts) && Apart(reg, st) ==> Apart(reg, next))
  }

  /** The first conflicting argument that has already been parsed. */
  function FirstParsed(st: ParseState, self: Arg, list: seq<Arg>): (r: Option<Arg>)
    ensures r.Some? ==> r.value in list && r.value != self && Count(st, r.value) > 0
    ensures r.None? ==> forall b :: b in list && b != self ==> Count(st, b) == 0
  {
    if list == [] then None
    else if list[0] != self && Count(st, list[0]) > 0 then Some(list[0])
    else FirstParsed(st, self, list[1..])
  }

  function ConflictOf(reg: Registry, st: ParseState, a: Arg): Option<Arg> {
    FirstParsed(st, a, ConflictsOf(reg.conflicts, a))
  }

  /** Counting an argument that passed the conflict check keeps conflicting arguments apart. */
  lemma {:induction false} BumpEvolves(reg: Registry, st: ParseState, a: Arg)
    requires a.CommandRef? || ConflictOf(reg, st, a).None?
    ensures Evolves(reg, st, Bump(st, a))
  {
    var next := Bump(st, a);
    if Symmetric(reg.conflicts) && Apart(reg, st) {
      forall x, y | Clash(reg.conflicts, x, y) && x != y && !x.CommandRef? && !y.CommandRef?
        ensures !(Count(next, x) > 0 && Count(next, y) > 0)
      {
        assert Clash(reg.conflicts, y, x);
      }
    }
  }

  // ---------- strings ----------

  predicate StartsWithDash(s: string) {
    |s| > 0 && s[0] == '-'
  }

  predicate IsLong(token: string) {
    |token| > 1 && token[0] == '-' && token[1] == '-'
  }

  function IndexOf(s: string, c: char): (r: Option<nat>)
    ensures r.Some? ==> r.value < |s| && s[r.value] == c
    ensures r.Some? ==> forall k :: 0 <= k < r.value ==> s[k] != c
    ensures r.None? ==> forall k :: 0 <= k < |s| ==> s[k] != c
  {
    if s == "" then None
    else if s[0] == c then Some(0)
    else match IndexOf(s[1..], c) case None => None case Some(k) => Some(k + 1)
  }

  /** The words, or the characters, from position i on. */
  function From<T>(s: seq<T>, i: nat): (r: seq<T>)
    requires i <= |s|
    ensures |r| == |s| - i
  {
    s[i..]
  }

  // ---------- named arguments ----------

  /** Stores the value, counts the argument and calls its hook. */
  function Accept(reg: Registry, n: nat, option: string, value: string, st: ParseState): (next: ParseState)
    requires n < |reg.named|
    ensures next.counts == Bump(st, NamedRef(n)).counts && next.uses == st.uses && next.selected == st.selected
  {
    var arg := reg.named[n];
    var stored := if arg.storeValue && arg.option.Some?
                  then st.(options := st.options[arg.option.value := value]) else st;
    var counted := Bump(stored, NamedRef(n));
    if arg.hasHook then counted.(hooks := counted.hooks + [NamedHook(n, option, value)]) else counted
  }

  lemma {:induction false} AcceptEvolves(reg: Registry, n: nat, option: string, value: string, st: ParseState)
    requires n < |reg.named| && ConflictOf(reg, st, NamedRef(n)).None?
    ensures Evolves(reg, st, Accept(reg, n, option, value, st))
  {
    BumpEvolves(reg, st, NamedRef(n));
    var a, b := Bump(st, NamedRef(n)), Accept(reg, n, option, value, st);
    assert forall x :: Count(a, x) == Count(b, x);
  }

  /** What every call of a parse function promises. */
  ghost predicate Proper<T>(reg: Registry, st: ParseState, r: Outcome<T>)
    requires Fits(reg)
  {
    && Evolves(reg, st, r.st)
    && (Resolved(reg) && r.Threw? ==> !r.error.NotFound?)
  }

  /** The text of an option up to its '=', if it has one. */
  function OptionName(option: string): string {
    match IndexOf(option, '=') case None => option case Some(k) => option[..k]
  }

  /** The value of an option in its long form, and how many words it takes. */
  function LongValue(arg: NamedArg, option: string, args: seq<string>): (r: Result<(string, nat), ParseError>)
    requires |args| > 0
    ensures r.Ok? ==> 1 <= r.value.1 <= |args|
    ensures r.Err? ==> r.error.MissingValue? || r.error.UnexpectedValue?
  {
    match IndexOf(option, '=')
    case Some(k) => if arg.hasValue then Ok((option[k + 1..], 1)) else Err(UnexpectedValue(option))
    case None =>
      if !arg.hasValue then Ok((arg.constValue, 1))
      else if |args| < 2 then Err(MissingValue(option))
      else Ok((args[1], 2))
  }

  /** The value of an option in its short form, and how many words it takes. */
  function ShortValue(arg: NamedArg, option: string, args: seq<string>): (r: Result<(string, nat), ParseError>)
    requires |args| > 0 && |option| > 0
    ensures r.Ok? ==> r.value.1 <= |args| && (r.value.1 == 0 ==> |option| > 1)
    ensures r.Err? ==> r.error.MissingValue?
  {
    if !arg.hasValue then Ok((arg.constValue, if |option| == 1 then 1 else 0))
    else if |option| > 1 then Ok((option[1..], 1))
    else if |args| < 2 then Err(MissingValue(option))
    else Ok((args[1], 2))
  }

  function ParseLong(reg: Registry, n: nat, option: string, args: seq<string>, st: ParseState): (r: Outcome<nat>)
    requires Sound(reg) && n < |reg.named| && |args| > 0
    ensures Proper(reg, st, r) && r.st.uses == st.uses && r.st.selected == st.selected
    ensures r.Done? ==> 1 <= r.value <= |args|
    decreases n, |reg.named[n].attached| + 1
  {
    match ConflictOf(reg, st, NamedRef(n))
    case Some(other) => Threw(Conflicting("--" + option, other), st)
    case None =>
      match LongValue(reg.named[n], option, args)
      case Err(e) => Threw(e, st)
      case Ok((value, consumed)) =>
        AcceptEvolves(reg, n, option, value, st);
        match FireLong(reg, n, 0, OptionName(option), value, Accept(reg, n, option, value, st))
        case Done(_, st') => Done(consumed, st')
        case Threw(e, st') => Threw(e, st')
  }

  /** Invokes the attached named arguments of `n` from the k-th on, in their long form. */
  function FireLong(reg: Registry, n: nat, k: nat, name: string, value: string, st: ParseState): (r: Outcome<()>)
    requires Sound(reg) && n < |reg.named| && k <= |reg.named[n].attached|
    ensures Proper(reg, st, r) && r.st.uses == st.uses && r.st.selected == st.selected
    decreases n, |reg.named[n].attached| - k, 1
  {
    if k == |reg.named[n].attached| then Done((), st)
    else
      match FireOneLong(reg, n, k, name, value, st)
      case Threw(e, st') => Threw(e, st')
      case Done(_, st') => FireLong(reg, n, k + 1, name, value, st')
  }

  function FireOneLong(reg: Registry, n: nat, k: nat, name: string, value: string, st: ParseState): (r: Outcome<nat>)
    requires Sound(reg) && n < |reg.named| && k < |reg.named[n].attached|
    ensures Proper(reg, st, r) && r.st.uses == st.uses && r.st.selected == st.selected
    decreases n, |reg.named[n].attached| - k, 0
  {
    var a := reg.named[n].attached[k];
    match Resolve(reg, a.idPath)
    case None => Threw(NotFound(a.idPath), st)
    case Some(m) =>
      var long := if reg.named[m].hasValue then name + "=" + ReplaceAll(a.value, "${}", value) else name;
      ParseLong(reg, m, long, [long], st)
  }

  /** `option` is the rest of the cluster from the argument's own letter on. */
  function ParseShort(reg: Registry, n: nat, option: string, args: seq<string>, st: ParseState): (r: Outcome<nat>)
    requires Sound(reg) && n < |reg.named| && |args| > 0 && |option| > 0
    ensures Proper(reg, st, r) && r.st.uses == st.uses && r.st.selected == st.selected
    ensures r.Done? ==> r.value <= |args| && (r.value == 0 ==> |option| > 1)
    decreases n, |reg.named[n].attached| + 1
  {
    match ConflictOf(reg, st, NamedRef(n))
    case Some(other) => Threw(Conflicting("-" + option, other), st)
    case None =>
      match ShortValue(reg.named[n], option, args)
      case Err(e) => Threw(e, st)
      case Ok((value, consumed)) =>
        AcceptEvolves(reg, n, option, value, st);
        match FireShort(reg, n, 0, option[0], value, Accept(reg, n, option, value, st))
        case Done(_, st') => Done(consumed, st')
        case Threw(e, st') => Threw(e, st')
  }

  function FireShort(reg: Registry, n: nat, k: nat, letter: char, value: string, st: ParseState): (r: Outcome<()>)
    requires Sound(reg) && n < |reg.named| && k <= |reg.named[n].attached|
    ensures Proper(reg, st, r) && r.st.uses == st.uses && r.st.selected == st.selected
    decreases n, |reg.named[n].attached| - k, 1
  {
    if k == |reg.named[n].attached| then Done((), st)
    else
      match FireOneShort(reg, n, k, letter, value, st)
      case Threw(e, st') => Threw(e, st')
      case Done(_, st') => FireShort(reg, n, k + 1, letter, value, st')
  }

  function FireOneShort(reg: Registry, n: nat, k: nat, letter: char, value: string, st: ParseState): (r: Outcome<nat>)
    requires Sound(reg) && n < |reg.named| && k < |reg.named[n].attached|
    ensures Proper(reg, st, r) && r.st.uses == st.uses && r.st.selected == st.selected
    decreases n, |reg.named[n].attached| - k, 0
  {
    var a := reg.named[n].attached[k];
    match Resolve(reg, a.idPath)
    case None => Threw(NotFound(a.idPath), st)
    case Some(m) =>
      var args := if reg.named[m].hasValue then [[letter], ReplaceAll(a.value, "${}", value)] else [[letter]];
      ParseShort(reg, m, [letter], args, st)
  }

  // ---------- positional arguments ----------

  /** How many leading words are not options; the first one is not looked at. */
  function Usable(args: seq<string>, from: nat): (u: nat)
    requires 1 <= from <= |args|
    ensures from <= u <= |args|
    ensures forall k :: from <= k < u ==> !StartsWithDash(args[k])
    ensures u < |args| ==> StartsWithDash(args[u])
    decreases |args| - from
  {
    if from < |args| && !StartsWithDash(args[from]) then Usable(args, from + 1) else from
  }

  function ValueCount(nvals: int, args: seq<string>): (count: nat)
    requires |args| > 0
    ensures count > 0 && (nvals <= |args| ==> count <= |args|)
  {
    if nvals > 0 then nvals else if nvals == OPTIONAL then 1 else Usable(args, 1)
  }

  /** The first `count` values are overwritten or appended; later ones keep what they held. */
  function StoreValues(held: seq<string>, values: seq<string>): seq<string> {
    values + if |values| <= |held| then held[|values|..] else []
  }

  /** Storing one more value appends or overwrites it. */
  lemma {:induction false} StoreNext(held: seq<string>, values: seq<string>, i: nat)
    requires i < |values|
    ensures var now := StoreValues(held, values[..i]);
            StoreValues(held, values[..i + 1]) == if |now| <= i then now + [values[i]] else now[i := values[i]]
  {
    assert values[..i + 1] == values[..i] + [values[i]];
  }

  predicate OptionAmong(args: seq<string>, nvals: int)
    requires nvals <= |args|
  {
    exists k :: 1 <= k < nvals && StartsWithDash(args[k])
  }

  function VectorOf(st: ParseState, v: nat): seq<string> {
    if v in st.vectors then st.vectors[v] else []
  }

  function AcceptPositional(reg: Registry, p: nat, values: seq<string>, st: ParseState): (next: ParseState)
    requires p < |reg.positional|
    ensures next.counts == Bump(st, PositionalRef(p)).counts && next.uses == st.uses && next.selected == st.selected
  {
    var arg := reg.positional[p];
    var stored := if arg.storeValue
                  then st.(vectors := st.vectors[arg.vector := StoreValues(VectorOf(st, arg.vector), values)]) else st;
    var counted := Bump(stored, PositionalRef(p));
    if arg.hasHook then counted.(hooks := counted.hooks + [PositionalHook(p, values)]) else counted
  }

  function ParsePositional(reg: Registry, p: nat, option: string, args: seq<string>, st: ParseState): (r: Outcome<nat>)
    requires Fits(reg) && p < |reg.positional| && |args| > 0
    ensures Proper(reg, st, r) && r.st.uses == st.uses && r.st.selected == st.selected
    ensures r.Done? ==> 1 <= r.value <= |args|
  {
    var arg := reg.positional[p];
    match ConflictOf(reg, st, PositionalRef(p))
    case Some(other) => Threw(Conflicting(option, other), st)
    case None =>
      if |args| < arg.nvals || OptionAmong(args, arg.nvals) then Threw(TooFewValues(p), st)
      else
        var count := ValueCount(arg.nvals, args);
        var next := AcceptPositional(reg, p, args[..count], st);
        BumpEvolves(reg, st, PositionalRef(p));
        assert forall x :: Count(next, x) == Count(Bump(st, PositionalRef(p)), x);
        Done(count, next)
  }

  // ---------- one turn of a command's loop ----------

  predicate MatchesOption(arg: NamedArg, token: string, idx: nat)
    requires StartsWithDash(token)
  {
    if IsLong(token) then
      var text := token[2..];
      var name := match IndexOf(text, '=') case None => text case Some(k) => text[..k];
      arg.longName != "" && arg.longName == name
    else
      arg.shortName.Some? && 1 + idx < |token| && arg.shortName.value == token[1 + idx]
  }

  function FindOption(reg: Registry, opts: seq<nat>, token: string, idx: nat): (r: Option<nat>)
    requires StartsWithDash(token)
    requires forall k :: 0 <= k < |opts| ==> opts[k] < |reg.named|
    ensures r.Some? ==> r.value < |reg.named| && MatchesOption(reg.named[r.value], token, idx)
  {
    if opts == [] then None
    else if MatchesOption(reg.named[opts[0]], token, idx) then Some(opts[0])
    else FindOption(reg, opts[1..], token, idx)
  }

  /** Where the loop stands: the next token, and the next letter inside a short-option cluster. */
  datatype Position = Position(i: nat, idx: nat)

  /** Inside a cluster there is a letter left to read; elsewhere idx is 0. */
  predicate AtPosition(argv: seq<string>, pos: Position) {
    && pos.i <= |argv|
    && (pos.idx > 0 ==>
        pos.i < |argv| && StartsWithDash(argv[pos.i]) && !IsLong(argv[pos.i]) && pos.idx + 1 < |argv[pos.i]|)
  }

  /** Letters of the current token still to be read. */
  function LettersLeft(argv: seq<string>, pos: Position): nat {
    if pos.i < |argv| && pos.idx <= |argv[pos.i]| then |argv[pos.i]| - pos.idx else 0
  }

  predicate Advances(argv: seq<string>, pos: Position, next: Position) {
    && AtPosition(argv, next)
    && (pos.i < next.i || (pos.i == next.i && pos.idx < next.idx && LettersLeft(argv, next) < LettersLeft(argv, pos)))
  }

  function Log(st: ParseState, u: Use): ParseState {
    st.(uses := st.uses + [u])
  }

  /** What the loop may rely on when an argument was parsed from the words at `pos`. */
  ghost predicate Parsed(reg: Registry, argv: seq<string>, pos: Position, st: ParseState, parsed: Outcome<nat>)
    requires Fits(reg)
  {
    && AtPosition(argv, pos) && pos.i < |argv|
    && Proper(reg, st, parsed) && parsed.st.uses == st.uses && parsed.st.selected == st.selected
    && (parsed.Done? ==> parsed.value <= |argv| - pos.i)
  }

  /** Hands the current token to `n`, in its long form. */
  function TakeLong(reg: Registry, n: nat, argv: seq<string>, pos: Position, st: ParseState): (r: Outcome<Position>)
    requires Sound(reg) && AtPosition(argv, pos) && pos.i < |argv| && IsLong(argv[pos.i]) && n < |reg.named|
    ensures Proper(reg, st, r) && r.st.selected == st.selected
    ensures r.Done? ==> Advances(argv, pos, r.value) && Consumes(st, r.st, pos, r.value)
  {
    TookLong(reg, n, argv, pos, st, ParseLong(reg, n, From(argv[pos.i], 2), From(argv, pos.i), st))
  }

  /** Moves on behind the words that a long option used. */
  function TookLong(reg: Registry, n: nat, argv: seq<string>, pos: Position, ghost st: ParseState, parsed: Outcome<nat>)
    : (r: Outcome<Position>)
    requires Fits(reg) && Parsed(reg, argv, pos, st, parsed) && IsLong(argv[pos.i])
             && (parsed.Done? ==> parsed.value > 0)
    ensures Proper(reg, st, r) && r.st.selected == st.selected
    ensures r.Done? ==> Advances(argv, pos, r.value) && Consumes(st, r.st, pos, r.value)
  {
    match parsed
    case Threw(e, st') => Threw(e, st')
    case Done(k, st') =>
      ConsumesOne(st, st', Tokens(NamedRef(n), pos.i, k, pos.idx), pos);
      Done(Position(pos.i + k, pos.idx), Log(st', Tokens(NamedRef(n), pos.i, k, pos.idx)))
  }

  /** Hands the current letter, and what follows it, to `n`. */
  function TakeShort(reg: Registry, n: nat, argv: seq<string>, pos: Position, st: ParseState): (r: Outcome<Position>)
    requires Sound(reg) && AtPosition(argv, pos) && pos.i < |argv| && n < |reg.named|
    requires StartsWithDash(argv[pos.i]) && !IsLong(argv[pos.i]) && 1 + pos.idx < |argv[pos.i]|
    ensures Proper(reg, st, r) && r.st.selected == st.selected
    ensures r.Done? ==> Advances(argv, pos, r.value) && Consumes(st, r.st, pos, r.value)
  {
    TookShort(reg, n, argv, pos, st, ParseShort(reg, n, From(argv[pos.i], 1 + pos.idx), From(argv, pos.i), st))
  }

  /** Moves on behind the words that a short option used, or to the next letter when it used none. */
  function TookShort(
    reg: Registry, n: nat, argv: seq<string>, pos: Position, ghost st: ParseState, parsed: Outcome<nat>)
    : (r: Outcome<Position>)
    requires Fits(reg) && Parsed(reg, argv, pos, st, parsed)
    requires StartsWithDash(argv[pos.i]) && !IsLong(argv[pos.i]) && 1 + pos.idx < |argv[pos.i]|
    requires parsed.Done? && parsed.value == 0 ==> 2 + pos.idx < |argv[pos.i]|
    ensures Proper(reg, st, r) && r.st.selected == st.selected
    ensures r.Done? ==> Advances(argv, pos, r.value) && Consumes(st, r.st, pos, r.value)
  {
    match parsed
    case Threw(e, st') => Threw(e, st')
    case Done(k, st') =>
      var u := if k > 0 then Tokens(NamedRef(n), pos.i, k, pos.idx) else ClusterChar(NamedRef(n), pos.i, pos.idx);
      ConsumesOne(st, st', u, pos);
      Done(After(u), Log(st', u))
  }

  /** Tries the named arguments `opts` on the current token; None when none of them takes it. */
  function TakeOption(reg: Registry, opts: seq<nat>, argv: seq<string>, pos: Position, st: ParseState)
    : (r: Outcome<Option<Position>>)
    requires Sound(reg) && AtPosition(argv, pos) && pos.i < |argv|
    requires forall k :: 0 <= k < |opts| ==> opts[k] < |reg.named|
    ensures Proper(reg, st, r) && r.st.selected == st.selected
    ensures r.Done? && r.value.None? ==> r.st == st
    ensures r.Done? && r.value.Some? ==> Advances(argv, pos, r.value.value) && Consumes(st, r.st, pos, r.value.value)
  {
    var token := argv[pos.i];
    if !StartsWithDash(token) then Done(None, st)
    else
      match FindOption(reg, opts, token, pos.idx)
      case None => Done(None, st)
      case Some(n) =>
        match if IsLong(token) then TakeLong(reg, n, argv, pos, st) else TakeShort(reg, n, argv, pos, st)
        case Threw(e, st') => Threw(e, st')
        case Done(next, st') => Done(Some(next), st')
  }

  // ---------- which tokens were used ----------

  /** `u` starts exactly where the loop stands. */
  predicate StartsAt(u: Use, pos: Position) {
    match u
    case Tokens(_, first, len, idx) => first == pos.i && idx == pos.idx && len > 0
    case ClusterChar(_, first, idx) => first == pos.i && idx == pos.idx
  }

  /** Where the loop stands after `u`. */
  function After(u: Use): Position {
    match u
    case Tokens(_, first, len, _) => Position(first + len, 0)
    case ClusterChar(_, first, idx) => Position(first, idx + 1)
  }

  /** The uses follow each other without gap or overlap from `pos` to `end`. */
  predicate Tiles(uses: seq<Use>, pos: Position, end: Position) {
    if uses == [] then pos == end
    else StartsAt(uses[0], pos) && Tiles(uses[1..], After(uses[0]), end)
  }

  /** The uses that `next` adds to `st` tile argv from `pos` to `end`. */
  ghost predicate Consumes(st: ParseState, next: ParseState, pos: Position, end: Position) {
    st.uses <= next.uses && Tiles(next.uses[|st.uses|..], pos, end)
  }

  lemma {:induction false} TilesConcat(us: seq<Use>, vs: seq<Use>, pos: Position, mid: Position, end: Position)
    requires Tiles(us, pos, mid) && Tiles(vs, mid, end)
    ensures Tiles(us + vs, pos, end)
  {
    if us == [] {
      assert us + vs == vs;
    } else {
      TilesConcat(us[1..], vs, After(us[0]), mid, end);
      assert (us + vs)[1..] == us[1..] + vs;
    }
  }

  lemma {:induction false} ConsumesThen(
    st: ParseState, mid: ParseState, next: ParseState, pos: Position, middle: Position, end: Position)
    requires Consumes(st, mid, pos, middle) && Consumes(mid, next, middle, end)
    ensures Consumes(st, next, pos, end)
  {
    var us, vs := mid.uses[|st.uses|..], next.uses[|mid.uses|..];
    TilesConcat(us, vs, pos, middle, end);
    assert next.uses[|st.uses|..] == us + vs;
  }

  lemma {:induction false} ConsumesOne(st: ParseState, mid: ParseState, u: Use, pos: Position)
    requires mid.uses == st.uses && StartsAt(u, pos)
    ensures Consumes(st, Log(mid, u), pos, After(u))
  {
    assert Log(mid, u).uses[|st.uses|..] == [u];
    assert [u][1..] == [];
  }

  // ---------- commands ----------

  /** The repetition rule that moves on to the next positional argument. */
  predicate PositionalExhausted(reg: Registry, p: nat, st: ParseState)
    requires p < |reg.positional|
  {
    var nrepeats := reg.positional[p].nrepeats;
    (nrepeats > 0 && Count(st, PositionalRef(p)) >= nrepeats) || nrepeats == OPTIONAL
  }

  /** The first required positional argument that was not given. */
  function FirstMissing(reg: Registry, ps: seq<nat>, st: ParseState): (r: Option<nat>)
    requires forall k :: 0 <= k < |ps| ==> ps[k] < |reg.positional|
  {
    if ps == [] then None
    else
      var arg := reg.positional[ps[0]];
      if (arg.nrepeats > 0 || arg.nrepeats == AT_LEAST_ONE) && Count(st, PositionalRef(ps[0])) == 0
         && arg.nvals != UNLIMITED && arg.nvals != OPTIONAL
      then Some(ps[0])
      else FirstMissing(reg, ps[1..], st)
  }

  /** What an ordinary command reports for a token nobody takes: the letter, or the token. */
  function UnusedText(token: string, idx: nat): string {
    if StartsWithDash(token) && !IsLong(token) && 1 + idx < |token| then ['-', token[1 + idx]] else token
  }

  /** Counts the command, checks its required positionals, and calls the hook of `hookOwner`. */
  function Finish(reg: Registry, c: nat, hookOwner: nat, option: string, argv: seq<string>, st: ParseState)
    : (r: Outcome<()>)
    requires Fits(reg) && c < |reg.commands| && hookOwner < |reg.commands|
    ensures Proper(reg, st, r) && r.st.uses == st.uses
  {
    var counted := Bump(st, CommandRef(c));
    BumpEvolves(reg, st, CommandRef(c));
    match FirstMissing(reg, PositionalsOf(reg, c), counted)
    case Some(p) => Threw(MissingPositional(p, reg.commands[c].id), counted)
    case None =>
      var hooked := if reg.commands[Body(reg, c)].hasHook
                    then counted.(hooks := counted.hooks + [CommandHook(hookOwner, option, argv)]) else counted;
      assert forall x :: Count(hooked, x) == Count(counted, x);
      Done((), hooked)
  }

  /** Parses From(argv, at) with command `c`; argv[at] is the word that named it. */
  function ParseCommand(reg: Registry, c: nat, option: string, argv: seq<string>, at: nat, st: ParseState)
    : (r: Outcome<()>)
    requires Sound(reg) && c < |reg.commands| && at < |argv|
    ensures Proper(reg, st, r)
    ensures r.Done? ==> Consumes(st, r.st, Position(at + 1, 0), Position(|argv|, 0))
    decreases |argv| - at, 0, 1
  {
    if reg.commands[c].Ordinary? then ParseOrdinary(reg, c, option, argv, at, st)
    else ParseAlias(reg, c, option, argv, at, st)
  }

  function ParseOrdinary(reg: Registry, c: nat, option: string, argv: seq<string>, at: nat, st: ParseState)
    : (r: Outcome<()>)
    requires Sound(reg) && c < |reg.commands| && reg.commands[c].Ordinary? && at < |argv|
    ensures Proper(reg, st, r)
    ensures r.Done? ==> Consumes(st, r.st, Position(at + 1, 0), Position(|argv|, 0))
    decreases |argv| - at, 0, 0
  {
    match OrdinaryLoop(reg, c, option, argv, Position(at + 1, 0), 0, st)
    case Threw(e, st') => Threw(e, st')
    case Done(_, st') => Finish(reg, c, c, option, From(argv, at), st')
  }

  /** Hands the current token to positional argument `p` and applies its repetition rule. */
  function TakePositional(reg: Registry, p: nat, argv: seq<string>, pos: Position, used: nat, st: ParseState)
    : (r: Outcome<(Position, nat)>)
    requires Fits(reg) && p < |reg.positional| && AtPosition(argv, pos) && pos.i < |argv|
    requires !StartsWithDash(argv[pos.i])
    ensures Proper(reg, st, r)
    ensures r.Done? ==> Advances(argv, pos, r.value.0) && Consumes(st, r.st, pos, r.value.0)
  {
    match ParsePositional(reg, p, argv[pos.i], From(argv, pos.i), st)
    case Threw(e, st') => Threw(e, st')
    case Done(k, st') =>
      var u := Tokens(PositionalRef(p), pos.i, k, pos.idx);
      var logged := Log(st', u);
      ConsumesOne(st, st', u, pos);
      assert forall x :: Count(logged, x) == Count(st', x);
      Done((Position(pos.i + k, pos.idx), if PositionalExhausted(reg, p, logged) then used + 1 else used), logged)
  }

  /**
   One turn of the loop of an ordinary command: the next position, and how many positional arguments
   are exhausted.
   */
  function OrdinaryTurn(
    reg: Registry, c: nat, option: string, argv: seq<string>, pos: Position, used: nat, st: ParseState)
    : (r: Outcome<(Position, nat)>)
    requires Sound(reg) && c < |reg.commands| && reg.commands[c].Ordinary?
    requires AtPosition(argv, pos) && pos.i < |argv|
    ensures Proper(reg, st, r)
    ensures r.Done? ==> Advances(argv, pos, r.value.0) && Consumes(st, r.st, pos, r.value.0)
    decreases |argv| - pos.i, 0, 3
  {
    var token := argv[pos.i];
    assert CommandFits(reg, c);
    match TakeOption(reg, Searchable(reg, c), argv, pos, st)
    case Threw(e, st') => Threw(e, st')
    case Done(Some(next), st') => Done((next, used), st')
    case Done(None, _) =>
      match FindCommand(reg, CommandsOf(reg, c), token)
      case Some(d) => (
        match ConflictOf(reg, st, CommandRef(c))
        case Some(other) => Threw(Conflicting(option, other), st)
        case None =>
          match Descend(reg, d, argv, pos, st)
          case Threw(e, st') => Threw(e, st')
          case Done(_, st') => Done((Position(|argv|, 0), used), st')
      )
      case None =>
        var ps := PositionalsOf(reg, c);
        if !StartsWithDash(token) && used < |ps| then TakePositional(reg, ps[used], argv, pos, used, st)
        else Threw(UnknownArgument(reg.commands[c].id, UnusedText(token, pos.idx)), st)
  }

  /** The loop of an ordinary command; `used` positional arguments are exhausted. */
  function OrdinaryLoop(
    reg: Registry, c: nat, option: string, argv: seq<string>, pos: Position, used: nat, st: ParseState)
    : (r: Outcome<()>)
    requires Sound(reg) && c < |reg.commands| && reg.commands[c].Ordinary? && AtPosition(argv, pos)
    ensures Proper(reg, st, r)
    ensures r.Done? ==> Consumes(st, r.st, pos, Position(|argv|, 0))
    decreases |argv| - pos.i, 1, LettersLeft(argv, pos)
  {
    if pos.i == |argv| then Done((), st)
    else
      match OrdinaryTurn(reg, c, option, argv, pos, used, st)
      case Threw(e, st') => Threw(e, st')
      case Done((next, used'), st') =>
        var r := OrdinaryLoop(reg, c, option, argv, next, used', st');
        if r.Done? then ConsumesThen(st, st', r.st, pos, next, Position(|argv|, 0)); r else r
  }

  /** Selects subcommand `d`, which parses the rest of argv. */
  function Descend(reg: Registry, d: nat, argv: seq<string>, pos: Position, st: ParseState): (r: Outcome<()>)
    requires Sound(reg) && d < |reg.commands| && AtPosition(argv, pos) && pos.i < |argv|
    ensures Proper(reg, st, r)
    ensures r.Done? ==> Consumes(st, r.st, pos, Position(|argv|, 0))
    decreases |argv| - pos.i, 0, 2
  {
    var u := Tokens(CommandRef(d), pos.i, 1, pos.idx);
    var entered := Log(st, u).(selected := d);
    var r := ParseCommand(reg, d, argv[pos.i], argv, pos.i, entered);
    ConsumesOne(st, st, u, pos);
    assert forall x :: Count(entered, x) == Count(st, x);
    if r.Done? then ConsumesThen(st, entered, r.st, pos, After(u), Position(|argv|, 0)); r else r
  }

  /**
   Invokes the attached named arguments of alias `c` from the k-th on; `words` are the alias and its
   required values.
   */
  function FireAlias(reg: Registry, c: nat, k: nat, option: string, words: seq<string>, st: ParseState)
    : (r: Outcome<()>)
    requires Sound(reg) && c < |reg.commands| && reg.commands[c].Alias? && k <= |reg.commands[c].attached|
    ensures Proper(reg, st, r) && r.st.uses == st.uses && r.st.selected == st.selected
    decreases |reg.commands[c].attached| - k
  {
    if k == |reg.commands[c].attached| then Done((), st)
    else
      match FireOneAlias(reg, c, k, option, words, st)
      case Threw(e, st') => Threw(e, st')
      case Done(_, st') => FireAlias(reg, c, k + 1, option, words, st')
  }

  lemma {:induction false} FireAliasTurn(
    reg: Registry, c: nat, k: nat, option: string, words: seq<string>, st: ParseState)
    requires Sound(reg) && c < |reg.commands| && reg.commands[c].Alias? && k < |reg.commands[c].attached|
    ensures FireAlias(reg, c, k, option, words, st) ==
            match FireOneAlias(reg, c, k, option, words, st)
            case Threw(e, st') => Threw(e, st')
            case Done(_, st') => FireAlias(reg, c, k + 1, option, words, st')
  {
  }

  /** The words handed to attached argument `m`; Err carries a placeholder that is out of range. */
  function AttachedWords(reg: Registry, m: nat, text: string, option: string, words: seq<string>)
    : (r: Result<seq<string>, string>)
    requires m < |reg.named|
    ensures r.Ok? ==> |r.value| > 0
  {
    if !reg.named[m].hasValue then Ok([option])
    else
      match FormatString(text, words)
      case Err(e) => Err(e)
      case Ok(value) => Ok([option, value])
  }

  function FireOneAlias(reg: Registry, c: nat, k: nat, option: string, words: seq<string>, st: ParseState)
    : (r: Outcome<nat>)
    requires Sound(reg) && c < |reg.commands| && reg.commands[c].Alias? && k < |reg.commands[c].attached|
    ensures Proper(reg, st, r) && r.st.uses == st.uses && r.st.selected == st.selected
  {
    var a := reg.commands[c].attached[k];
    FireTarget(reg, a, Resolve(reg, a.idPath), option, words, st)
  }

  /** The words an alias may refer to: itself and its required values. */
  function AliasWords(argv: seq<string>, at: nat, required: nat): seq<string>
    requires at + required < |argv|
  {
    argv[at..at + required + 1]
  }

  /** Hands the formatted value, if it wants one, to the argument the attachment resolves to. */
  function FireTarget(
    reg: Registry, a: Attached, target: Option<nat>, option: string, words: seq<string>, st: ParseState)
    : (r: Outcome<nat>)
    requires Sound(reg) && (target.Some? ==> target.value < |reg.named|)
    ensures Evolves(reg, st, r.st) && r.st.uses == st.uses && r.st.selected == st.selected
    ensures Resolved(reg) && target.Some? && r.Threw? ==> !r.error.NotFound?
  {
    match target
    case None => Threw(NotFound(a.idPath), st)
    case Some(m) =>
      match AttachedWords(reg, m, a.value, option, words)
      case Err(bad) => Threw(IndexOutOfRange(bad), st)
      case Ok(args) => ParseLong(reg, m, option, args, st)
  }

  /** What an alias does before its loop: take its required values and fire its attached arguments. */
  function AliasStart(reg: Registry, c: nat, option: string, argv: seq<string>, at: nat, st: ParseState)
    : (r: Outcome<Position>)
    requires Sound(reg) && c < |reg.commands| && reg.commands[c].Alias? && at < |argv|
    ensures Proper(reg, st, r)
    ensures r.Done? ==> AtPosition(argv, r.value) && at < r.value.i && Consumes(st, r.st, Position(at + 1, 0), r.value)
  {
    var required := reg.commands[c].required;
    if |argv| - at <= required then Threw(MissingValue(option), st)
    else Started(reg, c, required, at, st, FireAlias(reg, c, 0, option, AliasWords(argv, at, required), st))
  }

  /** The required values are used once the attached arguments have fired. */
  function Started(reg: Registry, c: nat, required: nat, at: nat, ghost st: ParseState, fired: Outcome<()>)
    : (r: Outcome<Position>)
    requires Fits(reg) && Proper(reg, st, fired) && fired.st.uses == st.uses
    ensures Proper(reg, st, r)
    ensures r.Done? ==> r.value == Position(at + 1 + required, 0) && Consumes(st, r.st, Position(at + 1, 0), r.value)
  {
    match fired
    case Threw(e, st') => Threw(e, st')
    case Done(_, st') => Done(Position(at + 1 + required, 0), LogRequired(reg, c, required, at, st'))
  }

  /** Records the use of the required values, if there are any. */
  function LogRequired(reg: Registry, c: nat, required: nat, at: nat, st: ParseState): (next: ParseState)
    ensures Evolves(reg, st, next)
    ensures Consumes(st, next, Position(at + 1, 0), Position(at + 1 + required, 0))
  {
    if required == 0 then st
    else
      var u := Tokens(CommandRef(c), at + 1, required, 0);
      ConsumesOne(st, st, u, Position(at + 1, 0));
      assert forall x :: Count(Log(st, u), x) == Count(st, x);
      Log(st, u)
  }

  function ParseAlias(reg: Registry, c: nat, option: string, argv: seq<string>, at: nat, st: ParseState)
    : (r: Outcome<()>)
    requires Sound(reg) && c < |reg.commands| && reg.commands[c].Alias? && at < |argv|
    ensures Proper(reg, st, r)
    ensures r.Done? ==> Consumes(st, r.st, Position(at + 1, 0), Position(|argv|, 0))
    decreases |argv| - at, 0, 0
  {
    assert CommandFits(reg, c);
    match AliasStart(reg, c, option, argv, at, st)
    case Threw(e, st') => Threw(e, st')
    case Done(start, fired) =>
      match AliasLoop(reg, c, option, argv, start, 0, fired)
      case Threw(e, st') => Threw(e, st')
      case Done(_, st') =>
        ConsumesThen(st, fired, st', Position(at + 1, 0), start, Position(|argv|, 0));
        Finish(reg, c, reg.commands[c].target, option, From(argv, at), st')
  }

  /**
   One turn of the loop of a command alias, over what its attached command offers: the next
   position, and how many positional arguments are exhausted.
   */
  function AliasTurn(reg: Registry, c: nat, option: string, argv: seq<string>, pos: Position, used: nat, st: ParseState)
    : (r: Outcome<(Position, nat)>)
    requires Sound(reg) && c < |reg.commands| && reg.commands[c].Alias?
    requires AtPosition(argv, pos) && pos.i < |argv|
    ensures Proper(reg, st, r)
    ensures r.Done? ==> Advances(argv, pos, r.value.0) && Consumes(st, r.st, pos, r.value.0)
    decreases |argv| - pos.i, 0, 3
  {
    var token := argv[pos.i];
    assert CommandFits(reg, c);
    match TakeOption(reg, SearchableByAlias(reg, c), argv, pos, st)
    case Threw(e, st') => Threw(e, st')
    case Done(Some(next), st') => Done((next, used), st')
    case Done(None, _) =>
      match FindCommand(reg, CommandsOf(reg, reg.commands[c].target), token)
      case Some(d) => (
        match ConflictOf(reg, st, CommandRef(c))
        case Some(other) => Threw(Conflicting(option, other), st)
        case None =>
          match Descend(reg, d, argv, pos, st)
          case Threw(e, st') => Threw(e, st')
          case Done(_, st') => Done((Position(|argv|, 0), used), st')
      )
      case None =>
        var ps := PositionalsOf(reg, reg.commands[c].target);
        if !StartsWithDash(token) && used < |ps| then TakePositional(reg, ps[used], argv, pos, used, st)
        else Threw(UnknownArgument(reg.commands[c].id, token), st)
  }

  /** The loop of a command alias, over what its attached command offers; `used` positional arguments are exhausted. */
  function AliasLoop(reg: Registry, c: nat, option: string, argv: seq<string>, pos: Position, used: nat, st: ParseState)
    : (r: Outcome<()>)
    requires Sound(reg) && c < |reg.commands| && reg.commands[c].Alias? && AtPosition(argv, pos)
    ensures Proper(reg, st, r)
    ensures r.Done? ==> Consumes(st, r.st, pos, Position(|argv|, 0))
    decreases |argv| - pos.i, 1, LettersLeft(argv, pos)
  {
    if pos.i == |argv| then Done((), st)
    else
      match AliasTurn(reg, c, option, argv, pos, used, st)
      case Threw(e, st') => Threw(e, st')
      case Done((next, used'), st') =>
        var r := AliasLoop(reg, c, option, argv, next, used', st');
        if r.Done? then ConsumesThen(st, st', r.st, pos, next, Position(|argv|, 0)); r else r
  }

  /** ArgumentParser::parse: the root command is selected and parses everything. */
  function ParseArgv(reg: Registry, argv: seq<string>, st: ParseState): (r: Outcome<()>)
    requires Sound(reg) && |argv| > 0
    ensures Proper(reg, st, r)
    ensures r.Done? ==> Consumes(st, r.st, Position(1, 0), Position(|argv|, 0))
  {
    var start := st.(selected := reg.root);
    var r := ParseCommand(reg, reg.root, argv[0], argv, 0, start);
    assert forall x :: Count(start, x) == Count(st, x);
    r
  }

  // ---------- every word is used once ----------

  /** How many of the uses take word `t` whole. */
  function Takers(uses: seq<Use>, t: nat): nat {
    if uses == [] then 0
    else (if uses[0].Tokens? && uses[0].first <= t < uses[0].first + uses[0].len then 1 else 0) + Takers(uses[1..], t)
  }

  lemma {:induction false} TilesTakeOnce(uses: seq<Use>, pos: Position, end: Position, t: nat)
    requires Tiles(uses, pos, end)
    ensures pos.i <= end.i
    ensures Takers(uses, t) == if pos.i <= t < end.i then 1 else 0
  {
    if uses != [] {
      TilesTakeOnce(uses[1..], After(uses[0]), end, t);
    }
  }

  /** A parse that succeeds gives every word after the first to exactly one argument, and no word beyond the end. */
  lemma {:induction false} EveryWordUsedOnce(reg: Registry, argv: seq<string>, st: ParseState, t: nat)
    requires Sound(reg) && |argv| > 0 && t > 0
    requires ParseArgv(reg, argv, st).Done?
    ensures Takers(ParseArgv(reg, argv, st).st.uses[|st.uses|..], t) == if t < |argv| then 1 else 0
  {
    TilesTakeOnce(ParseArgv(reg, argv, st).st.uses[|st.uses|..], Position(1, 0), Position(|argv|, 0), t);
  }
}
