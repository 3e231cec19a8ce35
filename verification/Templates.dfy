/**
 Text substitution used by command-line aliases: replacing every "${}" by a
 value, and replacing "${<index>}" by the matching command-line word.
 */
module Templates {
  import opened Wrappers

  // ---------- leftmost search ----------

  predicate OccursAt(s: string, what: string, i: nat) {
    i + |what| <= |s| && s[i..i + |what|] == what
  }

  /** The leftmost occurrence of `what` in `s` that starts at or after `from`. */
  function FindFrom(s: string, what: string, from: nat): (r: Option<nat>)
    requires from <= |s|
    ensures r.Some? ==> from <= r.value && OccursAt(s, what, r.value)
    decreases |s| - from
  {
    if from + |what| > |s| then None
    else if OccursAt(s, what, from) then Some(from)
    else if from == |s| then None
    else FindFrom(s, what, from + 1)
  }

  /** FindFrom skips no occurrence. */
  lemma {:induction false} FindIsLeftmost(s: string, what: string, from: nat, i: nat)
    requires from <= |s| && from <= i && OccursAt(s, what, i)
    ensures FindFrom(s, what, from).Some? && FindFrom(s, what, from).value <= i
    decreases |s| - from
  {
    if from < i {
      FindIsLeftmost(s, what, from + 1, i);
    }
  }

  lemma {:induction false} OccursInSuffix(s: string, what: string, k: nat, i: nat)
    requires k <= |s|
    ensures OccursAt(s[k..], what, i) <==> OccursAt(s, what, k + i)
  {
    if k + i + |what| <= |s| {
      assert s[k..][i..i + |what|] == s[k + i..k + i + |what|];
    }
  }

  /** Searching a suffix is searching the whole from the suffix's start. */
  lemma {:induction false} FindInSuffix(s: string, what: string, k: nat, from: nat)
    requires k <= from <= |s|
    ensures FindFrom(s, what, from) ==
            match FindFrom(s[k..], what, from - k) case None => None case Some(p) => Some(k + p)
    decreases |s| - from
  {
    OccursInSuffix(s, what, k, from - k);
    if from + |what| <= |s| && !OccursAt(s, what, from) && from < |s| {
      FindInSuffix(s, what, k, from + 1);
    }
  }

  // ---------- replace_all ----------

  /** Left-to-right, non-overlapping replacement. */
  function ReplaceAll(s: string, what: string, with: string): string
    requires |what| > 0
    decreases |s|
  {
    match FindFrom(s, what, 0)
    case None => s
    case Some(p) => s[..p] + with + ReplaceAll(s[p + |what|..], what, with)
  }

  /** The text between consecutive replaced occurrences. */
  function Pieces(s: string, what: string): (ps: seq<string>)
    requires |what| > 0
    ensures |ps| > 0
    decreases |s|
  {
    match FindFrom(s, what, 0)
    case None => [s]
    case Some(p) => [s[..p]] + Pieces(s[p + |what|..], what)
  }

  function Join(ps: seq<string>, sep: string): string
    requires |ps| > 0
  {
    if |ps| == 1 then ps[0] else ps[0] + sep + Join(ps[1..], sep)
  }

  ghost predicate Contains(s: string, what: string) {
    exists i: nat :: OccursAt(s, what, i)
  }

  lemma {:induction false} JoinCons(p: string, ps: seq<string>, sep: string)
    requires |ps| > 0
    ensures Join([p] + ps, sep) == p + sep + Join(ps, sep)
  {
    assert ([p] + ps)[1..] == ps;
  }

  lemma {:induction false} ReplaceFirst(s: string, q: nat, what: string, with: string)
    requires |what| > 0 && FindFrom(s, what, 0) == Some(q)
    ensures ReplaceAll(s, what, with) == s[..q] + with + ReplaceAll(s[q + |what|..], what, with)
  {
  }

  lemma {:induction false} PiecesFirst(s: string, q: nat, what: string)
    requires |what| > 0 && FindFrom(s, what, 0) == Some(q)
    ensures Pieces(s, what) == [s[..q]] + Pieces(s[q + |what|..], what)
  {
  }

  /** The pieces hold no occurrence, and putting the occurrences back between them restores the text. */
  lemma {:induction false} PiecesSplit(s: string, what: string)
    requires |what| > 0
    ensures Join(Pieces(s, what), what) == s
    ensures forall p :: p in Pieces(s, what) ==> !Contains(p, what)
    decreases |s|
  {
    match FindFrom(s, what, 0)
    case None =>
      if Contains(s, what) {
        var i: nat :| OccursAt(s, what, i);
        FindIsLeftmost(s, what, 0, i);
      }
    case Some(q) =>
      var rest := s[q + |what|..];
      PiecesSplit(rest, what);
      PiecesFirst(s, q, what);
      JoinCons(s[..q], Pieces(rest, what), what);
      assert s == s[..q] + what + rest;
      NothingBefore(s, q, what);
  }

  lemma {:induction false} NothingBefore(s: string, q: nat, what: string)
    requires FindFrom(s, what, 0) == Some(q)
    ensures !Contains(s[..q], what) || what == ""
  {
    if Contains(s[..q], what) {
      var i: nat :| OccursAt(s[..q], what, i);
      assert s[..q][i..i + |what|] == s[i..i + |what|];
      FindIsLeftmost(s, what, 0, i);
    }
  }

  /**
   Replacement is splitting at the occurrences and joining with the new text,
   so nothing that was substituted is read again, whatever `with` holds.
   */
  lemma {:induction false} ReplaceIsSplitAndJoin(s: string, what: string, with: string)
    requires |what| > 0
    ensures ReplaceAll(s, what, with) == Join(Pieces(s, what), with)
    decreases |s|
  {
    match FindFrom(s, what, 0)
    case None =>
    case Some(q) =>
      var rest := s[q + |what|..];
      ReplaceIsSplitAndJoin(rest, what, with);
      ReplaceFirst(s, q, what, with);
      PiecesFirst(s, q, what);
      JoinCons(s[..q], Pieces(rest, what), with);
  }

  lemma {:induction false} Regroup(a: string, b: string, c: string, d: string)
    ensures a + (b + c + d) == (a + b + c) + d
  {
  }

  lemma {:induction false} SuffixOfSuffix(s: string, k: nat, j: nat)
    requires k + j <= |s|
    ensures s[k..][j..] == s[k + j..]
    ensures s[..k] + s[k..][..j] == s[..k + j]
    ensures s[k..][..j] == s[k..k + j]
  {
  }

  /** One turn of the in-place loop: the text up to the occurrence is settled. */
  lemma {:induction false} ReplaceTurn(inout: string, pos: nat, p: nat, what: string, with: string)
    requires |what| > 0 && pos <= |inout|
    requires FindFrom(inout, what, pos) == Some(p)
    ensures inout[..pos] + ReplaceAll(inout[pos..], what, with)
         == (inout[..p] + with) + ReplaceAll(inout[p + |what|..], what, with)
    ensures |Pieces(inout[pos..], what)| == 1 + |Pieces(inout[p + |what|..], what)|
  {
    var head, tail, q := inout[..pos], inout[pos..], p - pos;
    FindInSuffix(inout, what, pos, pos);
    ReplaceFirst(tail, q, what, with);
    PiecesFirst(tail, q, what);
    var rest := tail[q + |what|..];
    assert rest == inout[p + |what|..] && head + tail[..q] == inout[..p] by {
      SuffixOfSuffix(inout, pos, q);
      SuffixOfSuffix(inout, pos, q + |what|);
    }
    Regroup(head, tail[..q], with, ReplaceAll(rest, what, with));
  }

  /** The in-place loop: find, replace, and go on after the replacement. */
  method ReplaceAllInPlace(s: string, what: string, with: string) returns (inout: string, count: nat)
    requires |what| > 0
    ensures inout == ReplaceAll(s, what, with)
    ensures count == |Pieces(s, what)| - 1
  {
    inout, count := s, 0;
    var pos := 0;
    assert s[0..] == s;
    while FindFrom(inout, what, pos).Some?
      invariant pos <= |inout|
      invariant inout[..pos] + ReplaceAll(inout[pos..], what, with) == ReplaceAll(s, what, with)
      invariant count + |Pieces(inout[pos..], what)| == |Pieces(s, what)|
      decreases |inout| - pos
    {
      var p := FindFrom(inout, what, pos).value;
      ReplaceTurn(inout, pos, p, what, with);
      var done, rest := inout[..p] + with, inout[p + |what|..];
      inout, pos, count := done + rest, |done|, count + 1;
      assert inout[..pos] == done && inout[pos..] == rest;
    }
    FindInSuffix(inout, what, pos, pos);
    assert inout[..pos] + inout[pos..] == inout;
  }

  // ---------- format_string ----------

  predicate IsDigit(c: char) {
    '0' <= c <= '9'
  }

  function DigitsEnd(s: string, i: nat): (e: nat)
    requires i <= |s|
    ensures i <= e <= |s|
    ensures forall k :: i <= k < e ==> IsDigit(s[k])
    ensures e < |s| ==> !IsDigit(s[e])
    decreases |s| - i
  {
    if i < |s| && IsDigit(s[i]) then DigitsEnd(s, i + 1) else i
  }

  /** Where a placeholder `${digits}` that starts at `p` ends, if one does. */
  function PlaceholderEnd(s: string, p: nat): (e: Option<nat>)
    requires p <= |s|
    ensures e.Some? ==> p + 4 <= e.value <= |s|
  {
    if p + 1 < |s| && s[p] == '$' && s[p + 1] == '{' then
      var d := DigitsEnd(s, p + 2);
      if d > p + 2 && d < |s| && s[d] == '}' then Some(d + 1) else None
    else None
  }

  /** The start of the leftmost placeholder at or after `from`. */
  function NextPlaceholder(s: string, from: nat): (r: Option<nat>)
    requires from <= |s|
    ensures r.Some? ==> from <= r.value < |s| && PlaceholderEnd(s, r.value).Some?
    decreases |s| - from
  {
    if PlaceholderEnd(s, from).Some? then Some(from)
    else if from == |s| then None
    else NextPlaceholder(s, from + 1)
  }

  /** NextPlaceholder skips no placeholder. */
  lemma {:induction false} NextIsLeftmost(s: string, from: nat, i: nat)
    requires from <= i <= |s| && PlaceholderEnd(s, i).Some?
    ensures NextPlaceholder(s, from).Some? && NextPlaceholder(s, from).value <= i
    decreases |s| - from
  {
    if from < i {
      NextIsLeftmost(s, from + 1, i);
    }
  }

  function ParseNat(s: string): nat
    requires forall k :: 0 <= k < |s| ==> IsDigit(s[k])
  {
    if s == "" then 0
    else
      var c := s[|s| - 1];
      assert IsDigit(c);
      10 * ParseNat(s[..|s| - 1]) + (c as int - '0' as int)
  }

  /** The index a placeholder names; an index too large for an int is out of range all the same. */
  function IndexAt(s: string, p: nat): nat
    requires p <= |s| && PlaceholderEnd(s, p).Some?
  {
    ParseNat(s[p + 2..PlaceholderEnd(s, p).value - 1])
  }

  function Prepend(prefix: string, r: Result<string, string>): Result<string, string> {
    match r
    case Ok(t) => Ok(prefix + t)
    case Err(e) => Err(e)
  }

  /** Replaces placeholders left to right; Err carries the first placeholder that is out of range. */
  function FormatString(s: string, argv: seq<string>): Result<string, string>
    decreases |s|
  {
    match NextPlaceholder(s, 0)
    case None => Ok(s)
    case Some(p) =>
      var e := PlaceholderEnd(s, p).value;
      if IndexAt(s, p) >= |argv| then Err(s[p..e])
      else Prepend(s[..p] + argv[IndexAt(s, p)], FormatString(s[e..], argv))
  }

  lemma {:induction false} DigitsEndInSuffix(s: string, k: nat, i: nat)
    requires k <= i <= |s|
    ensures DigitsEnd(s, i) == k + DigitsEnd(s[k..], i - k)
    decreases |s| - i
  {
    if i < |s| && IsDigit(s[i]) {
      DigitsEndInSuffix(s, k, i + 1);
    }
  }

  lemma {:induction false} PlaceholderInSuffix(s: string, k: nat, p: nat)
    requires k <= p <= |s|
    ensures PlaceholderEnd(s, p).Some? <==> PlaceholderEnd(s[k..], p - k).Some?
    ensures PlaceholderEnd(s, p).Some? ==>
              && PlaceholderEnd(s, p).value == k + PlaceholderEnd(s[k..], p - k).value
              && IndexAt(s, p) == IndexAt(s[k..], p - k)
  {
    if p + 1 < |s| {
      DigitsEndInSuffix(s, k, p + 2);
      if PlaceholderEnd(s, p).Some? {
        var e := PlaceholderEnd(s, p).value;
        assert s[p + 2..e - 1] == s[k..][p - k + 2..e - k - 1];
      }
    }
  }

  lemma {:induction false} NextInSuffix(s: string, k: nat, from: nat)
    requires k <= from <= |s|
    ensures NextPlaceholder(s, from).Some? <==> NextPlaceholder(s[k..], from - k).Some?
    ensures NextPlaceholder(s, from).Some? ==>
              NextPlaceholder(s, from).value == k + NextPlaceholder(s[k..], from - k).value
    decreases |s| - from
  {
    PlaceholderInSuffix(s, k, from);
    if PlaceholderEnd(s, from).None? && from < |s| {
      NextInSuffix(s, k, from + 1);
    }
  }

  lemma {:induction false} PrependTwice(x: string, y: string, r: Result<string, string>)
    ensures Prepend(x, Prepend(y, r)) == Prepend(x + y, r)
  {
    if r.Ok? {
      assert x + (y + r.value) == (x + y) + r.value;
    }
  }

  /** One unfolding of FormatString at its first placeholder. */
  lemma {:induction false} FormatFirst(s: string, p: nat, argv: seq<string>)
    requires NextPlaceholder(s, 0) == Some(p)
    ensures var e := PlaceholderEnd(s, p).value;
            FormatString(s, argv) ==
            if IndexAt(s, p) >= |argv| then Err(s[p..e])
            else Prepend(s[..p] + argv[IndexAt(s, p)], FormatString(s[e..], argv))
  {
  }

  lemma {:induction false} SliceOfSuffix(s: string, k: nat, p: nat, e: nat)
    requires k <= p <= e <= |s|
    ensures s[k..][p - k..e - k] == s[p..e]
    ensures s[k..][..p - k] == s[k..p]
    ensures s[k..][e - k..] == s[e..]
  {
  }

  /** Formatting from `begin` on: settle the text up to the first placeholder there, then go on after it. */
  lemma {:induction false} FormatTurn(s: string, begin: nat, p: nat, argv: seq<string>)
    requires begin <= |s| && NextPlaceholder(s, begin) == Some(p)
    ensures var e := PlaceholderEnd(s, p).value;
            FormatString(s[begin..], argv) ==
            if IndexAt(s, p) >= |argv| then Err(s[p..e])
            else Prepend(s[begin..p] + argv[IndexAt(s, p)], FormatString(s[e..], argv))
  {
    var t, q, e := s[begin..], p - begin, PlaceholderEnd(s, p).value;
    assert NextPlaceholder(t, 0) == Some(q) by {
      NextInSuffix(s, begin, begin);
    }
    assert PlaceholderEnd(t, q) == Some(e - begin) && IndexAt(t, q) == IndexAt(s, p) by {
      PlaceholderInSuffix(s, begin, p);
    }
    FormatFirst(t, q, argv);
    assert t[q..e - begin] == s[p..e] && t[..q] == s[begin..p] && t[e - begin..] == s[e..] by {
      SliceOfSuffix(s, begin, p, e);
    }
  }

  /** The search loop that appends to `formatted` and moves `begin` past each match. */
  method FormatStringLoop(format: string, argv: seq<string>) returns (r: Result<string, string>)
    ensures r == FormatString(format, argv)
  {
    var formatted, begin := "", 0;
    assert format[0..] == format;
    assert FormatString(format, argv).Ok? ==> "" + FormatString(format, argv).value == FormatString(format, argv).value;
    while NextPlaceholder(format, begin).Some?
      invariant begin <= |format|
      invariant Prepend(formatted, FormatString(format[begin..], argv)) == FormatString(format, argv)
      decreases |format| - begin
    {
      var p := NextPlaceholder(format, begin).value;
      var e, index := PlaceholderEnd(format, p).value, IndexAt(format, p);
      FormatTurn(format, begin, p, argv);
      if index >= |argv| {
        return Err(format[p..e]);
      }
      PrependTwice(formatted, format[begin..p] + argv[index], FormatString(format[e..], argv));
      formatted := formatted + (format[begin..p] + argv[index]);
      begin := e;
    }
    NextInSuffix(format, begin, begin);
    return Ok(formatted + format[begin..]);
  }

  // ---------- rendering a template and formatting it again ----------

  datatype Piece = Lit(text: string) | Ref(index: nat)

  function Decimal(n: nat): (s: string)
    ensures |s| > 0 && forall k :: 0 <= k < |s| ==> IsDigit(s[k])
  {
    var d := [('0' as int + n % 10) as char];
    if n < 10 then d else Decimal(n / 10) + d
  }

  lemma {:induction false} ParseDecimal(n: nat)
    ensures ParseNat(Decimal(n)) == n
  {
    var s := Decimal(n);
    if n >= 10 {
      ParseDecimal(n / 10);
      assert s[..|s| - 1] == Decimal(n / 10);
    } else {
      assert s[..|s| - 1] == "";
    }
  }

  function Placeholder(i: nat): string {
    "${" + Decimal(i) + "}"
  }

  function Render(t: seq<Piece>): string {
    if t == [] then ""
    else (match t[0] case Lit(x) => x case Ref(i) => Placeholder(i)) + Render(t[1..])
  }

  /** What a template means: literals stand for themselves, references for words. */
  function Meaning(t: seq<Piece>, argv: seq<string>): Result<string, string> {
    if t == [] then Ok("")
    else
      match t[0]
      case Lit(x) => Prepend(x, Meaning(t[1..], argv))
      case Ref(i) => if i < |argv| then Prepend(argv[i], Meaning(t[1..], argv)) else Err(Placeholder(i))
  }

  /** Literals hold no placeholder, and no two literals are adjacent. */
  ghost predicate Separated(t: seq<Piece>) {
    && (forall k :: 0 <= k < |t| && t[k].Lit? ==> NextPlaceholder(t[k].text, 0).None?)
    && (forall k :: 0 <= k < |t| - 1 ==> !(t[k].Lit? && t[k + 1].Lit?))
  }

  lemma {:induction false} DigitsEndUnique(s: string, i: nat, e: nat)
    requires i <= e <= |s|
    requires forall k :: i <= k < e ==> IsDigit(s[k])
    requires e < |s| ==> !IsDigit(s[e])
    ensures DigitsEnd(s, i) == e
  {
  }

  /** A rendered reference is read back as itself, whatever follows it. */
  lemma {:induction false} ReadReference(i: nat, rest: string)
    ensures PlaceholderEnd(Placeholder(i) + rest, 0) == Some(|Placeholder(i)|)
    ensures IndexAt(Placeholder(i) + rest, 0) == i
  {
    var d := Decimal(i);
    var s := Placeholder(i) + rest;
    forall k | 2 <= k < 2 + |d|
      ensures IsDigit(s[k])
    {
      assert s[k] == d[k - 2];
    }
    assert s[2 + |d|] == '}';
    DigitsEndUnique(s, 2, 2 + |d|);
    assert s[2..2 + |d|] == d;
    ParseDecimal(i);
  }

  lemma {:induction false} OneDollar(s: string, p: nat, j: nat)
    requires p <= |s| && PlaceholderEnd(s, p).Some? && p < j < PlaceholderEnd(s, p).value
    ensures s[j] != '$'
  {
  }

  /** No placeholder starts inside a literal, even across its end, when a '$' or nothing follows. */
  lemma {:induction false} NoneStartsInLiteral(x: string, y: string, p: nat)
    requires NextPlaceholder(x, 0).None?
    requires y == "" || y[0] == '$'
    requires p < |x|
    ensures PlaceholderEnd(x + y, p).None?
  {
    var s := x + y;
    if PlaceholderEnd(s, p).Some? {
      var e := PlaceholderEnd(s, p).value;
      if e > |x| {
        OneDollar(s, p, |x|);
      } else {
        assert forall k :: p <= k < e ==> x[k] == s[k];
        DigitsEndUnique(x, p + 2, e - 1);
        NextIsLeftmost(x, 0, p);
      }
    }
  }

  lemma {:induction false} NextAfterLiteral(x: string, y: string, from: nat)
    requires NextPlaceholder(x, 0).None?
    requires y == "" || y[0] == '$'
    requires from <= |x|
    ensures NextPlaceholder(x + y, from) == NextPlaceholder(x + y, |x|)
    decreases |x| - from
  {
    if from < |x| {
      NoneStartsInLiteral(x, y, from);
      NextAfterLiteral(x, y, from + 1);
    }
  }

  lemma {:induction false} FormatLiteral(x: string, y: string, argv: seq<string>)
    requires NextPlaceholder(x, 0).None?
    requires y == "" || y[0] == '$'
    ensures FormatString(x + y, argv) == Prepend(x, FormatString(y, argv))
  {
    var s := x + y;
    assert s[|x|..] == y && s[0..] == s;
    NextAfterLiteral(x, y, 0);
    match NextPlaceholder(s, |x|) {
      case None => NextInSuffix(s, |x|, |x|);
      case Some(p) => FormatAfterLiteral(s, |x|, p, argv);
    }
  }

  lemma {:induction false} CutAndAdd(s: string, n: nat, p: nat, w: string)
    requires n <= p <= |s|
    ensures s[0..p] + w == s[..n] + (s[n..p] + w)
  {
  }

  lemma {:induction false} FormatAfterLiteral(s: string, n: nat, p: nat, argv: seq<string>)
    requires n <= |s| && NextPlaceholder(s, 0) == NextPlaceholder(s, n) == Some(p)
    ensures FormatString(s[0..], argv) == Prepend(s[..n], FormatString(s[n..], argv))
  {
    FormatTurn(s, 0, p, argv);
    FormatTurn(s, n, p, argv);
    if IndexAt(s, p) < |argv| {
      var e, w := PlaceholderEnd(s, p).value, argv[IndexAt(s, p)];
      CutAndAdd(s, n, p, w);
      PrependTwice(s[..n], s[n..p] + w, FormatString(s[e..], argv));
    }
  }

  /** Formatting a rendered template gives the template's meaning, errors included. */
  lemma {:induction false} FormatRendered(t: seq<Piece>, argv: seq<string>)
    requires Separated(t)
    ensures FormatString(Render(t), argv) == Meaning(t, argv)
  {
    if t != [] {
      var rest := t[1..];
      assert forall k :: 0 <= k < |rest| ==> rest[k] == t[k + 1];
      FormatRendered(rest, argv);
      var y := Render(rest);
      match t[0] {
        case Lit(x) =>
          if rest != [] {
            assert t[1].Ref? && rest[0] == t[1];
          }
          FormatLiteral(x, y, argv);
        case Ref(i) =>
          var s := Placeholder(i) + y;
          ReadReference(i, y);
          assert s[|Placeholder(i)|..] == y;
          assert s[0..|Placeholder(i)|] == Placeholder(i) && s[0..] == s;
          FormatTurn(s, 0, 0, argv);
          if i < |argv| {
            assert s[0..0] + argv[i] == argv[i];
          }
      }
    }
  }
}
