/**
 Different spellings of one option mean the same: "--name=value" and
 "--name value", "-xvalue" and "-x value", "-x" inside a cluster and alone.
 Only the option text handed to the argument's own hook differs.
 */
module ParserSpellings {
  import opened Wrappers
  import opened Registry
  import opened Parser
  import opened ParserFrames

  // ---------- spellings ----------

  /** The same hook call up to the option text. */
  predicate SameCall(x: HookCall, y: HookCall) {
    x == y || (x.NamedHook? && y.NamedHook? && x.n == y.n && x.value == y.value)
  }

  ghost predicate SameCalls(x: seq<HookCall>, y: seq<HookCall>) {
    |x| == |y| && forall k :: 0 <= k < |x| ==> SameCall(x[k], y[k])
  }

  /** Equal outcomes up to the option text in hook calls and in a conflict error. */
  ghost predicate SameMeaning(x: Outcome<nat>, y: Outcome<nat>) {
    && x.st == y.st.(hooks := x.st.hooks)
    && SameCalls(x.st.hooks, y.st.hooks)
    && x.Done? == y.Done?
    && (x.Threw? && y.Threw? ==>
        x.error == y.error || (x.error.Conflicting? && y.error.Conflicting? && x.error.other == y.error.other))
  }

  lemma {:induction false} AcceptSpelled(reg: Registry, n: nat, o: string, p: string, value: string, st: ParseState)
    requires n < |reg.named|
    ensures var a, b := Accept(reg, n, o, value, st), Accept(reg, n, p, value, st);
            a == b.(hooks := a.hooks) && SameCalls(a.hooks, b.hooks)
  {
  }

  lemma {:induction false} SameCallsThen(h: seq<HookCall>, g: seq<HookCall>, d: seq<HookCall>)
    requires SameCalls(h, g)
    ensures SameCalls(h + d, g + d)
  {
  }

  /** After the same value was accepted under two texts, firing the attachments keeps the meaning the same. */
  lemma {:induction false} FireLongSpelled(
    reg: Registry, n: nat, o: string, p: string, name: string, value: string, st: ParseState)
    requires Sound(reg) && n < |reg.named|
    ensures var a, b := Accept(reg, n, o, value, st), Accept(reg, n, p, value, st);
            var x, y := FireLong(reg, n, 0, name, value, a), FireLong(reg, n, 0, name, value, b);
            && x.st == y.st.(hooks := x.st.hooks) && SameCalls(x.st.hooks, y.st.hooks)
            && x.Done? == y.Done? && (x.Threw? ==> x.error == y.error)
  {
    var a, b := Accept(reg, n, o, value, st), Accept(reg, n, p, value, st);
    AcceptSpelled(reg, n, o, p, value, st);
    FireLongFrame(reg, n, 0, name, value, b, a);
    var y := FireLong(reg, n, 0, name, value, b);
    SameCallsThen(a.hooks, b.hooks, y.st.hooks[|b.hooks|..]);
    assert b.hooks + y.st.hooks[|b.hooks|..] == y.st.hooks;
  }

  lemma {:induction false} FireShortSpelled(
    reg: Registry, n: nat, o: string, p: string, letter: char, value: string, st: ParseState)
    requires Sound(reg) && n < |reg.named|
    ensures var a, b := Accept(reg, n, o, value, st), Accept(reg, n, p, value, st);
            var x, y := FireShort(reg, n, 0, letter, value, a), FireShort(reg, n, 0, letter, value, b);
            && x.st == y.st.(hooks := x.st.hooks) && SameCalls(x.st.hooks, y.st.hooks)
            && x.Done? == y.Done? && (x.Threw? ==> x.error == y.error)
  {
    var a, b := Accept(reg, n, o, value, st), Accept(reg, n, p, value, st);
    AcceptSpelled(reg, n, o, p, value, st);
    FireShortFrame(reg, n, 0, letter, value, b, a);
    var y := FireShort(reg, n, 0, letter, value, b);
    SameCallsThen(a.hooks, b.hooks, y.st.hooks[|b.hooks|..]);
    assert b.hooks + y.st.hooks[|b.hooks|..] == y.st.hooks;
  }

  lemma {:induction false} AssignSplits(name: string, value: string)
    requires IndexOf(name, '=').None?
    ensures IndexOf(name + "=" + value, '=') == Some(|name|)
    ensures (name + "=" + value)[..|name|] == name && (name + "=" + value)[|name| + 1..] == value
  {
    var s := name + "=" + value;
    assert s[|name|] == '=' && forall k :: 0 <= k < |name| ==> s[k] == name[k];
  }

  /** "--name=value" and "--name value" mean the same; they use one word and two words. */
  lemma {:induction false} LongSpellings(
    reg: Registry, n: nat, name: string, value: string, one: seq<string>, two: seq<string>, st: ParseState)
    requires Sound(reg) && n < |reg.named| && reg.named[n].hasValue && IndexOf(name, '=').None?
    requires |one| > 0 && |two| > 1 && two[1] == value
    ensures var x, y := ParseLong(reg, n, name + "=" + value, one, st), ParseLong(reg, n, name, two, st);
            SameMeaning(x, y) && (x.Done? ==> x.value == 1 && y.value == 2)
  {
    AssignSplits(name, value);
    FireLongSpelled(reg, n, name + "=" + value, name, name, value, st);
  }

  /**
   An argument without attachments is taken exactly when nothing it conflicts
   with was parsed; it then stores the given value, counts itself and calls its
   hook, and does nothing else.
   */
  lemma {:induction false} LongStores(
    reg: Registry, n: nat, name: string, value: string, args: seq<string>, st: ParseState)
    requires Sound(reg) && n < |reg.named| && reg.named[n].hasValue && IndexOf(name, '=').None? && |args| > 0
    requires reg.named[n].attached == []
    ensures var arg, r := reg.named[n], ParseLong(reg, n, name + "=" + value, args, st);
            && (r.Done? <==> forall b :: Clash(reg.conflicts, NamedRef(n), b) && b != NamedRef(n) ==> Count(st, b) == 0)
            && (r.Threw? ==> r.st == st)
            && (r.Done? ==>
              && (forall a :: Count(r.st, a) == Count(st, a) + if a == NamedRef(n) then 1 else 0)
              && r.st.options ==
                  (if arg.storeValue && arg.option.Some? then st.options[arg.option.value := value] else st.options)
              && r.st.hooks == st.hooks + (if arg.hasHook then [NamedHook(n, name + "=" + value, value)] else [])
              && r.st.vectors == st.vectors)
  {
    AssignSplits(name, value);
  }

  /** "-xvalue" and "-x value" mean the same. */
  lemma {:induction false} ShortSpellings(
    reg: Registry, n: nat, letter: char, value: string, one: seq<string>, two: seq<string>, st: ParseState)
    requires Sound(reg) && n < |reg.named| && reg.named[n].hasValue && value != ""
    requires |one| > 0 && |two| > 1 && two[1] == value
    ensures var x, y := ParseShort(reg, n, [letter] + value, one, st), ParseShort(reg, n, [letter], two, st);
            SameMeaning(x, y) && (x.Done? ==> x.value == 1 && y.value == 2)
  {
    assert ([letter] + value)[1..] == value;
    FireShortSpelled(reg, n, [letter] + value, [letter], letter, value, st);
  }

  /** A flag means the same inside a cluster and alone; inside it leaves the token to the next letter. */
  lemma {:induction false} FlagInCluster(
    reg: Registry, n: nat, letter: char, rest: string, args: seq<string>, words: seq<string>, st: ParseState)
    requires Sound(reg) && n < |reg.named| && !reg.named[n].hasValue && rest != ""
    requires |args| > 0 && |words| > 0
    ensures var x, y := ParseShort(reg, n, [letter] + rest, args, st), ParseShort(reg, n, [letter], words, st);
            SameMeaning(x, y) && (x.Done? ==> x.value == 0 && y.value == 1)
  {
    FireShortSpelled(reg, n, [letter] + rest, [letter], letter, reg.named[n].constValue, st);
  }

  // ---------- positional arguments ----------

  /** What a positional argument takes: its number of values, or the longest run of words that are no options. */
  lemma {:induction false} PositionalTakes(reg: Registry, p: nat, option: string, args: seq<string>, st: ParseState)
    requires Fits(reg) && p < |reg.positional| && |args| > 0
    ensures var arg, r := reg.positional[p], ParsePositional(reg, p, option, args, st);
            && (r.Done? <==>
                 && (forall b :: Clash(reg.conflicts, PositionalRef(p), b) && b != PositionalRef(p) ==>
                     Count(st, b) == 0)
                 && arg.nvals <= |args|
                 && forall k :: 1 <= k < arg.nvals ==> !StartsWithDash(args[k]))
            && (r.Threw? ==> r.st == st)
            && (r.Done? ==>
              && (arg.nvals > 0 ==> r.value == arg.nvals)
              && (arg.nvals == OPTIONAL ==> r.value == 1)
              && (arg.nvals < 0 ==> r.value == |args| || StartsWithDash(args[r.value]))
              && (forall k :: 1 <= k < r.value ==> !StartsWithDash(args[k]))
              && Count(r.st, PositionalRef(p)) == Count(st, PositionalRef(p)) + 1
              && r.st.options == st.options
              && r.st.hooks == st.hooks + (if arg.hasHook then [PositionalHook(p, args[..r.value])] else [])
              && (forall v :: v != arg.vector ==> VectorOf(r.st, v) == VectorOf(st, v))
              && (arg.storeValue ==>
                   && VectorOf(r.st, arg.vector)[..r.value] == args[..r.value]
                   && forall k :: r.value <= k < |VectorOf(st, arg.vector)| ==>
                        k < |VectorOf(r.st, arg.vector)|
                            && VectorOf(r.st, arg.vector)[k] == VectorOf(st, arg.vector)[k]))
  {
    var arg, r := reg.positional[p], ParsePositional(reg, p, option, args, st);
    if r.Done? && arg.storeValue {
      var held, values := VectorOf(st, arg.vector), args[..r.value];
      assert VectorOf(r.st, arg.vector) == StoreValues(held, values);
      assert StoreValues(held, values)[..|values|] == values;
    }
  }
}
