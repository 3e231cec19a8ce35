/**
 Parsing one argument depends on the counts and values in the state, not on
 earlier hook calls, on the uses recorded or on the selected command.
 */
module ParserFrames {
  import opened Wrappers
  import opened Registry
  import opened Parser
  import Templates

  /** Equal counts and values. */
  predicate SameCore(st: ParseState, o: ParseState) {
    st.counts == o.counts && st.options == o.options && st.vectors == o.vectors
  }

  /** `s` does from `o` on what `r` does from `st` on. */
  ghost predicate Framed<T(!new)>(st: ParseState, o: ParseState, r: Outcome<T>, s: Outcome<T>) {
    && st.hooks <= r.st.hooks
    && s.st == r.st.(hooks := o.hooks + r.st.hooks[|st.hooks|..], uses := o.uses, selected := o.selected)
    && r.Done? == s.Done?
    && (r.Done? && s.Done? ==> r.value == s.value)
    && (r.Threw? && s.Threw? ==> r.error == s.error)
  }

  lemma {:induction false} FirstParsedFrame(st: ParseState, o: ParseState, self: Arg, list: seq<Arg>)
    requires SameCore(st, o)
    ensures FirstParsed(o, self, list) == FirstParsed(st, self, list)
  {
    if list != [] {
      FirstParsedFrame(st, o, self, list[1..]);
      assert Count(o, list[0]) == Count(st, list[0]);
    }
  }

  lemma {:induction false} AcceptFrame(
    reg: Registry, n: nat, option: string, value: string, st: ParseState, o: ParseState)
    requires n < |reg.named| && SameCore(st, o)
    ensures var a, b := Accept(reg, n, option, value, st), Accept(reg, n, option, value, o);
            && SameCore(a, b) && st.hooks <= a.hooks
            && b == a.(hooks := o.hooks + a.hooks[|st.hooks|..], uses := o.uses, selected := o.selected)
  {
    var a := Accept(reg, n, option, value, st);
    assert Count(o, NamedRef(n)) == Count(st, NamedRef(n));
    if reg.named[n].hasHook {
      assert a.hooks[|st.hooks|..] == [NamedHook(n, option, value)];
    } else {
      assert a.hooks[|st.hooks|..] == [] && o.hooks + [] == o.hooks;
    }
  }

  /** Two framed calls one after the other are framed. */
  lemma {:induction false} FrameThen<T(!new)>(
    st: ParseState, o: ParseState, mid: ParseState, omid: ParseState, r: Outcome<T>, s: Outcome<T>)
    requires st.hooks <= mid.hooks && omid.hooks == o.hooks + mid.hooks[|st.hooks|..]
    requires omid.uses == o.uses && omid.selected == o.selected
    requires Framed(mid, omid, r, s)
    ensures Framed(st, o, r, s)
  {
    var d, e := mid.hooks[|st.hooks|..], r.st.hooks[|mid.hooks|..];
    assert (o.hooks + d) + e == o.hooks + (d + e);
    assert d + e == r.st.hooks[|st.hooks|..];
  }

  lemma {:induction false} LongFrame(
    reg: Registry, n: nat, option: string, args: seq<string>, st: ParseState, o: ParseState)
    requires Sound(reg) && n < |reg.named| && |args| > 0 && SameCore(st, o)
    ensures Framed(st, o, ParseLong(reg, n, option, args, st), ParseLong(reg, n, option, args, o))
    decreases n, |reg.named[n].attached| + 1
  {
    FirstParsedFrame(st, o, NamedRef(n), ConflictsOf(reg.conflicts, NamedRef(n)));
    assert o.hooks + st.hooks[|st.hooks|..] == o.hooks;
    var taken := LongValue(reg.named[n], option, args);
    if ConflictOf(reg, st, NamedRef(n)).None? && taken.Ok? {
      var value, name := taken.value.0, OptionName(option);
      AcceptFrame(reg, n, option, value, st, o);
      var a, b := Accept(reg, n, option, value, st), Accept(reg, n, option, value, o);
      FireLongFrame(reg, n, 0, name, value, a, b);
      FrameThen(st, o, a, b, FireLong(reg, n, 0, name, value, a), FireLong(reg, n, 0, name, value, b));
    }
  }

  lemma {:induction false} FireLongFrame(
    reg: Registry, n: nat, k: nat, name: string, value: string, st: ParseState, o: ParseState)
    requires Sound(reg) && n < |reg.named| && k <= |reg.named[n].attached| && SameCore(st, o)
    ensures Framed(st, o, FireLong(reg, n, k, name, value, st), FireLong(reg, n, k, name, value, o))
    decreases n, |reg.named[n].attached| - k, 1
  {
    assert o.hooks + st.hooks[|st.hooks|..] == o.hooks;
    if k < |reg.named[n].attached| {
      FireOneLongFrame(reg, n, k, name, value, st, o);
      var mid, omid := FireOneLong(reg, n, k, name, value, st), FireOneLong(reg, n, k, name, value, o);
      if mid.Done? {
        FireLongFrame(reg, n, k + 1, name, value, mid.st, omid.st);
        FrameThen(st, o, mid.st, omid.st, FireLong(reg, n, k + 1, name, value, mid.st),
                  FireLong(reg, n, k + 1, name, value, omid.st));
      }
    }
  }

  lemma {:induction false} FireOneLongFrame(
    reg: Registry, n: nat, k: nat, name: string, value: string, st: ParseState, o: ParseState)
    requires Sound(reg) && n < |reg.named| && k < |reg.named[n].attached| && SameCore(st, o)
    ensures Framed(st, o, FireOneLong(reg, n, k, name, value, st), FireOneLong(reg, n, k, name, value, o))
    decreases n, |reg.named[n].attached| - k, 0
  {
    assert o.hooks + st.hooks[|st.hooks|..] == o.hooks;
    var a := reg.named[n].attached[k];
    var m := Resolve(reg, a.idPath);
    if m.Some? {
      var long :=
          if reg.named[m.value].hasValue then name + "=" + Templates.ReplaceAll(a.value, "${}", value) else name;
      LongFrame(reg, m.value, long, [long], st, o);
    }
  }

  lemma {:induction false} ShortFrame(
    reg: Registry, n: nat, option: string, args: seq<string>, st: ParseState, o: ParseState)
    requires Sound(reg) && n < |reg.named| && |args| > 0 && |option| > 0 && SameCore(st, o)
    ensures Framed(st, o, ParseShort(reg, n, option, args, st), ParseShort(reg, n, option, args, o))
    decreases n, |reg.named[n].attached| + 1
  {
    FirstParsedFrame(st, o, NamedRef(n), ConflictsOf(reg.conflicts, NamedRef(n)));
    assert o.hooks + st.hooks[|st.hooks|..] == o.hooks;
    var taken := ShortValue(reg.named[n], option, args);
    if ConflictOf(reg, st, NamedRef(n)).None? && taken.Ok? {
      var value, letter := taken.value.0, option[0];
      AcceptFrame(reg, n, option, value, st, o);
      var a, b := Accept(reg, n, option, value, st), Accept(reg, n, option, value, o);
      FireShortFrame(reg, n, 0, letter, value, a, b);
      FrameThen(st, o, a, b, FireShort(reg, n, 0, letter, value, a), FireShort(reg, n, 0, letter, value, b));
    }
  }

  lemma {:induction false} FireShortFrame(
    reg: Registry, n: nat, k: nat, letter: char, value: string, st: ParseState, o: ParseState)
    requires Sound(reg) && n < |reg.named| && k <= |reg.named[n].attached| && SameCore(st, o)
    ensures Framed(st, o, FireShort(reg, n, k, letter, value, st), FireShort(reg, n, k, letter, value, o))
    decreases n, |reg.named[n].attached| - k, 1
  {
    assert o.hooks + st.hooks[|st.hooks|..] == o.hooks;
    if k < |reg.named[n].attached| {
      FireOneShortFrame(reg, n, k, letter, value, st, o);
      var mid, omid := FireOneShort(reg, n, k, letter, value, st), FireOneShort(reg, n, k, letter, value, o);
      if mid.Done? {
        FireShortFrame(reg, n, k + 1, letter, value, mid.st, omid.st);
        FrameThen(st, o, mid.st, omid.st, FireShort(reg, n, k + 1, letter, value, mid.st),
                  FireShort(reg, n, k + 1, letter, value, omid.st));
      }
    }
  }

  lemma {:induction false} FireOneShortFrame(
    reg: Registry, n: nat, k: nat, letter: char, value: string, st: ParseState, o: ParseState)
    requires Sound(reg) && n < |reg.named| && k < |reg.named[n].attached| && SameCore(st, o)
    ensures Framed(st, o, FireOneShort(reg, n, k, letter, value, st), FireOneShort(reg, n, k, letter, value, o))
    decreases n, |reg.named[n].attached| - k, 0
  {
    assert o.hooks + st.hooks[|st.hooks|..] == o.hooks;
    var a := reg.named[n].attached[k];
    var m := Resolve(reg, a.idPath);
    if m.Some? {
      var args :=
          if reg.named[m.value].hasValue then [[letter], Templates.ReplaceAll(a.value, "${}", value)] else [[letter]];
      ShortFrame(reg, m.value, [letter], args, st, o);
    }
  }

  // ---------- positional arguments ----------

  lemma {:induction false} AcceptPositionalFrame(
    reg: Registry, p: nat, values: seq<string>, st: ParseState, o: ParseState)
    requires p < |reg.positional| && SameCore(st, o)
    ensures var a, b := AcceptPositional(reg, p, values, st), AcceptPositional(reg, p, values, o);
            && st.hooks <= a.hooks
            && b == a.(hooks := o.hooks + a.hooks[|st.hooks|..], uses := o.uses, selected := o.selected)
  {
    var a := AcceptPositional(reg, p, values, st);
    assert Count(o, PositionalRef(p)) == Count(st, PositionalRef(p));
    if reg.positional[p].hasHook {
      assert a.hooks[|st.hooks|..] == [PositionalHook(p, values)];
    } else {
      assert a.hooks[|st.hooks|..] == [] && o.hooks + [] == o.hooks;
    }
  }

  lemma {:induction false} PositionalFrame(
    reg: Registry, p: nat, option: string, args: seq<string>, st: ParseState, o: ParseState)
    requires Fits(reg) && p < |reg.positional| && |args| > 0 && SameCore(st, o)
    ensures Framed(st, o, ParsePositional(reg, p, option, args, st), ParsePositional(reg, p, option, args, o))
  {
    FirstParsedFrame(st, o, PositionalRef(p), ConflictsOf(reg.conflicts, PositionalRef(p)));
    assert o.hooks + st.hooks[|st.hooks|..] == o.hooks;
    var arg := reg.positional[p];
    if ConflictOf(reg, st, PositionalRef(p)).None? && !(|args| < arg.nvals || OptionAmong(args, arg.nvals)) {
      AcceptPositionalFrame(reg, p, args[..ValueCount(arg.nvals, args)], st, o);
    }
  }

  // ---------- what an alias fires ----------

  lemma {:induction false} FireTargetFrame(
    reg: Registry, a: Attached, target: Option<nat>, option: string, words: seq<string>, st: ParseState, o: ParseState)
    requires Sound(reg) && (target.Some? ==> target.value < |reg.named|) && SameCore(st, o)
    ensures Framed(st, o, FireTarget(reg, a, target, option, words, st), FireTarget(reg, a, target, option, words, o))
  {
    assert o.hooks + st.hooks[|st.hooks|..] == o.hooks;
    if target.Some? {
      var args := AttachedWords(reg, target.value, a.value, option, words);
      if args.Ok? {
        LongFrame(reg, target.value, option, args.value, st, o);
      }
    }
  }

  lemma {:induction false} FireOneAliasFrame(
    reg: Registry, c: nat, k: nat, option: string, words: seq<string>, st: ParseState, o: ParseState)
    requires Sound(reg) && c < |reg.commands| && reg.commands[c].Alias? && k < |reg.commands[c].attached|
    requires SameCore(st, o)
    ensures Framed(st, o, FireOneAlias(reg, c, k, option, words, st), FireOneAlias(reg, c, k, option, words, o))
  {
    var a := reg.commands[c].attached[k];
    FireTargetFrame(reg, a, Resolve(reg, a.idPath), option, words, st, o);
  }

  lemma {:induction false} FireAliasFrame(
    reg: Registry, c: nat, k: nat, option: string, words: seq<string>, st: ParseState, o: ParseState)
    requires Sound(reg) && c < |reg.commands| && reg.commands[c].Alias? && k <= |reg.commands[c].attached|
    requires SameCore(st, o)
    ensures Framed(st, o, FireAlias(reg, c, k, option, words, st), FireAlias(reg, c, k, option, words, o))
    decreases |reg.commands[c].attached| - k
  {
    assert o.hooks + st.hooks[|st.hooks|..] == o.hooks;
    if k < |reg.commands[c].attached| {
      FireOneAliasFrame(reg, c, k, option, words, st, o);
      var mid, omid := FireOneAlias(reg, c, k, option, words, st), FireOneAlias(reg, c, k, option, words, o);
      if mid.Done? {
        FireAliasFrame(reg, c, k + 1, option, words, mid.st, omid.st);
        FrameThen(st, o, mid.st, omid.st, FireAlias(reg, c, k + 1, option, words, mid.st),
                  FireAlias(reg, c, k + 1, option, words, omid.st));
      }
    }
  }
}
