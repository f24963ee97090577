/**
 What a format string without specifiers means, said without a parser: it is text and fields, written one
 after the other, and a field stands for the next argument or for the one whose number it holds. The runtime
 formatter agrees with this on every string without a colon, errors included.
 */
module FormatMeaning {
  import opened Wrappers
  import opened FormatString
  import opened CompiledFormat

  datatype Piece = Chars(text: string) | Next | At(n: nat)

  function Shown(p: Piece): string {
    match p
    case Chars(text) => Escape(text)
    case Next => "{}"
    case At(n) => "{" + Decimal(n) + "}"
  }

  function Render(pieces: seq<Piece>): string {
    if pieces == [] then "" else Shown(pieces[0]) + Render(pieces[1..])
  }

  function Capped(n: nat): nat { if n <= INT_MAX then n else INT_MAX }

  /** The text of the first piece, and the next automatic argument behind it. */
  function First<A, T, S>(fm: Formatting<A, T, S>, args: seq<A>, p: Piece, nextId: int): (Option<string>, int) {
    match p
    case Chars(t) => (Some(t), nextId)
    case Next => (if 0 <= nextId < |args| then Some(fm.default(args[nextId])) else None, nextId + 1)
    case At(n) => (if nextId <= 0 && Capped(n) < |args| then Some(fm.default(args[Capped(n)])) else None, MANUAL)
  }

  /** The output of the pieces, when `nextId` is the next automatic argument, 0 before the first field of either
      kind and MANUAL after a numbered one. None is an error: a missing argument, or both kinds of fields. */
  function Meaning<A, T, S>(fm: Formatting<A, T, S>, args: seq<A>, pieces: seq<Piece>, nextId: int): Option<string> {
    if pieces == [] then Some("")
    else
      var (text, id) := First(fm, args, pieces[0], nextId);
      match (text, Meaning(fm, args, pieces[1..], id))
      case (Some(l), Some(r)) => Some(l + r)
      case _ => None
  }

  // ---------------------------------------------------------------- numbers

  lemma {:induction false} FirstDigit(n: nat)
    ensures Decimal(n)[0] == '0' <==> n == 0
  {
    if n >= 10 {
      FirstDigit(n / 10);
    }
  }

  lemma {:induction false} DecimalLength(n: nat, k: nat)
    requires k >= 1 && n < Pow10(k)
    ensures |Decimal(n)| <= k
  {
    if n >= 10 {
      assert Pow10(k) == 10 * Pow10(k - 1);
      assert k > 1 by {
        assert Pow10(0) == 1;
      }
      DecimalLength(n / 10, k - 1);
    }
  }

  /** A number comes back as it was written, capped. */
  lemma WrittenNumber(n: nat)
    ensures Nonnegative(Decimal(n), INT_MAX) == Capped(n)
  {
    DecimalDenotes(n);
    if n <= INT_MAX {
      TenToTheTenth();
      DecimalLength(n, 10);
    }
  }

  lemma TenToTheTenth()
    ensures INT_MAX < Pow10(10)
  {
    assert Pow10(5) == 100_000;
    assert Pow10(10) == 100_000 * Pow10(5);
  }

  /** Digits that do not start with a superfluous zero are the decimal form of their value. */
  lemma {:induction false} CanonicalDecimal(digits: string)
    requires AllDigits(digits) && digits != "" && (digits[0] == '0' ==> |digits| == 1)
    ensures Decimal(Value(digits)) == digits
  {
    var front, last := digits[..|digits| - 1], digits[|digits| - 1];
    assert digits == front + [last];
    assert DigitChar(Digit(last)) == last;
    if front == "" {
      assert Value(front) == 0;
    } else {
      CanonicalDecimal(front);
      PositiveValue(front);
      assert (10 * Value(front) + Digit(last)) / 10 == Value(front);
    }
  }

  lemma {:induction false} PositiveValue(digits: string)
    requires AllDigits(digits) && digits != "" && digits[0] != '0'
    ensures Value(digits) > 0
  {
    if |digits| > 1 {
      PositiveValue(digits[..|digits| - 1]);
    }
  }

  lemma {:induction false} DigitsEndAt(fmt: string, pos: nat, end: nat)
    requires pos <= end <= |fmt| && AllDigits(fmt[pos..end]) && (end < |fmt| ==> !IsDigit(fmt[end]))
    ensures DigitsEnd(fmt, pos) == end
    decreases end - pos
  {
    if pos < end {
      assert fmt[pos] == fmt[pos..end][0];
      assert fmt[pos + 1..end] == fmt[pos..end][1..];
      DigitsEndAt(fmt, pos + 1, end);
    }
  }

  // ---------------------------------------------------------------- the formatter on written pieces

  function Out(o: Outcome<Context>): Option<string> {
    match o case Done(h) => Some(h.out) case Failed(_, _) => None
  }

  /** What the formatter makes of the string from `pos` on. */
  ghost function Run<A(!new), T(!new), S(!new)>(fm: Formatting<A, T, S>, args: seq<A>, fmt: string, h: Context,
                                                pos: nat): Option<string>
    requires pos <= |fmt| && Lawful(fm)
  {
    HandlerBehaves(fm, args, fmt);
    Out(Parse(FormatHandler(fm, args, fmt), fmt, h, pos, pos))
  }

  lemma RunAtEnd<A(!new), T(!new), S(!new)>(fm: Formatting<A, T, S>, args: seq<A>, fmt: string, h: Context)
    requires Lawful(fm)
    ensures Run(fm, args, fmt, h, |fmt|) == Some(h.out)
  {
    assert h.out + fmt[|fmt|..] == h.out;
  }

  lemma RunChar<A(!new), T(!new), S(!new)>(fm: Formatting<A, T, S>, args: seq<A>, fmt: string, h: Context, pos: nat)
    requires pos < |fmt| && Lawful(fm) && fmt[pos] != '{' && fmt[pos] != '}'
    ensures Run(fm, args, fmt, h, pos) == Run(fm, args, fmt, h.(out := h.out + [fmt[pos]]), pos + 1)
  {
    HandlerBehaves(fm, args, fmt);
    HandOverText(fm, args, fmt, h, pos, pos + 1);
    assert fmt[pos..pos + 1] == [fmt[pos]];
  }

  lemma RunBrace<A(!new), T(!new), S(!new)>(fm: Formatting<A, T, S>, args: seq<A>, fmt: string, h: Context, pos: nat)
    requires pos + 1 < |fmt| && Lawful(fm) && (fmt[pos] == '{' || fmt[pos] == '}') && fmt[pos + 1] == fmt[pos]
    ensures Run(fm, args, fmt, h, pos) == Run(fm, args, fmt, h.(out := h.out + [fmt[pos]]), pos + 2)
  {
    HandlerBehaves(fm, args, fmt);
    assert fmt[pos..pos] == "" && fmt[pos..pos + 1] == [fmt[pos]];
    assert h.(out := h.out + "") == h;
  }

  lemma {:induction false} RunChars<A(!new), T(!new), S(!new)>(fm: Formatting<A, T, S>, args: seq<A>, fmt: string,
                                                               h: Context, pos: nat, t: string, rest: string)
    requires pos <= |fmt| && Lawful(fm) && fmt[pos..] == Escape(t) + rest
    ensures pos + |Escape(t)| <= |fmt| && fmt[pos + |Escape(t)|..] == rest
    ensures Run(fm, args, fmt, h, pos) == Run(fm, args, fmt, h.(out := h.out + t), pos + |Escape(t)|)
    decreases |t|
  {
    assert |fmt| - pos == |Escape(t)| + |rest|;
    if t == "" {
      assert h.out + "" == h.out;
    } else {
      var c, h' := t[0], h.(out := h.out + [t[0]]);
      var step := if c == '{' || c == '}' then 2 else 1;
      EscapeFirst(fmt, pos, t, rest);
      if step == 2 {
        RunBrace(fm, args, fmt, h, pos);
      } else {
        RunChar(fm, args, fmt, h, pos);
      }
      RunChars(fm, args, fmt, h', pos + step, t[1..], rest);
      assert h.out + [c] + t[1..] == h.out + t;
    }
  }

  lemma EscapeFirst(fmt: string, pos: nat, t: string, rest: string)
    requires pos <= |fmt| && t != "" && fmt[pos..] == Escape(t) + rest
    ensures var c := t[0];
            var step := if c == '{' || c == '}' then 2 else 1;
            |Escape(t)| == step + |Escape(t[1..])| && pos + step <= |fmt| && fmt[pos] == c &&
            (step == 2 ==> fmt[pos + 1] == c) && fmt[pos + step..] == Escape(t[1..]) + rest
  {
    var front := if t[0] == '{' || t[0] == '}' then [t[0], t[0]] else [t[0]];
    assert Escape(t) == front + Escape(t[1..]);
    Regroup(front, Escape(t[1..]), rest);
    Front(fmt, pos, front, Escape(t[1..]) + rest);
  }

  lemma Regroup<T>(a: seq<T>, b: seq<T>, c: seq<T>)
    ensures a + b + c == a + (b + c)
  {}

  /** What stands at `pos` when the string goes on like this. */
  lemma Front(fmt: string, pos: nat, front: string, rest: string)
    requires pos <= |fmt| && fmt[pos..] == front + rest
    ensures pos + |front| <= |fmt| && fmt[pos..pos + |front|] == front && fmt[pos + |front|..] == rest
    ensures forall i :: 0 <= i < |front| ==> fmt[pos + i] == front[i]
  {
    assert |fmt| - pos == |front| + |rest|;
    assert fmt[pos..][..|front|] == fmt[pos..pos + |front|] && fmt[pos..][|front|..] == fmt[pos + |front|..];
    forall i | 0 <= i < |front|
      ensures fmt[pos + i] == front[i]
    {
      assert fmt[pos + i] == fmt[pos..][i];
    }
  }

  lemma RunField<A(!new), T(!new), S(!new)>(fm: Formatting<A, T, S>, args: seq<A>, fmt: string, h: Context, pos: nat,
                                            end: nat, h': Option<Context>)
    requires pos < end < |fmt| && Lawful(fm) && fmt[pos] == '{' && fmt[end] == '}' && fmt[pos + 1] != '{'
    requires end == pos + 1 || (fmt[pos + 1] != '}' && ParseArgId(fmt, pos + 1).1 == end)
    requires var id := if end == pos + 1 then Auto else ParseArgId(fmt, pos + 1).0;
             h' == match OnArgId(FormatHandler(fm, args, fmt), h, id)
                   case None => None
                   case Some((h1, n)) => FormatField(fm, args, h1, n)
    ensures Run(fm, args, fmt, h, pos) == if h'.Some? then Run(fm, args, fmt, h'.value, end + 1) else None
  {
    HandlerBehaves(fm, args, fmt);
    assert h.(out := h.out + fmt[pos..pos]) == h;
  }

  lemma RunNext<A(!new), T(!new), S(!new)>(fm: Formatting<A, T, S>, args: seq<A>, fmt: string, h: Context, pos: nat)
    requires pos + 1 < |fmt| && Lawful(fm) && fmt[pos] == '{' && fmt[pos + 1] == '}'
    ensures Run(fm, args, fmt, h, pos) ==
            if 0 <= h.nextId < |args|
            then Run(fm, args, fmt, Context(h.out + fm.default(args[h.nextId]), h.nextId + 1), pos + 2) else None
  {
    var h' := if 0 <= h.nextId < |args| then Some(Context(h.out + fm.default(args[h.nextId]), h.nextId + 1)) else None;
    RunField(fm, args, fmt, h, pos, pos + 1, h');
  }

  lemma NumberIsRead(fmt: string, pos: nat, n: nat)
    requires pos + |Decimal(n)| < |fmt| && fmt[pos..pos + |Decimal(n)|] == Decimal(n)
    requires fmt[pos + |Decimal(n)|] == '}' || fmt[pos + |Decimal(n)|] == ':'
    ensures ParseArgId(fmt, pos) == (Index(Capped(n)), pos + |Decimal(n)|)
  {
    var end := pos + |Decimal(n)|;
    assert fmt[pos] == fmt[pos..end][0];
    FirstDigit(n);
    WrittenNumber(n);
    DigitsEndAt(fmt, pos, end);
  }

  lemma RunAt<A(!new), T(!new), S(!new)>(fm: Formatting<A, T, S>, args: seq<A>, fmt: string, h: Context, pos: nat,
                                         n: nat)
    requires pos + |Decimal(n)| + 1 < |fmt| && Lawful(fm) && h.nextId >= MANUAL && fmt[pos] == '{'
    requires fmt[pos + 1..pos + 1 + |Decimal(n)|] == Decimal(n) && fmt[pos + 1 + |Decimal(n)|] == '}'
    ensures Run(fm, args, fmt, h, pos) ==
            if h.nextId <= 0 && Capped(n) < |args|
            then Run(fm, args, fmt, Context(h.out + fm.default(args[Capped(n)]), MANUAL), pos + 2 + |Decimal(n)|)
            else None
  {
    var end := pos + 1 + |Decimal(n)|;
    NumberIsRead(fmt, pos + 1, n);
    assert fmt[pos + 1] == fmt[pos + 1..end][0] && IsDigit(Decimal(n)[0]);
    var h' := if h.nextId <= 0 && Capped(n) < |args|
              then Some(Context(h.out + fm.default(args[Capped(n)]), MANUAL)) else None;
    RunField(fm, args, fmt, h, pos, end, h');
  }

  /** One piece. */
  lemma RunPiece<A(!new), T(!new), S(!new)>(fm: Formatting<A, T, S>, args: seq<A>, fmt: string, h: Context, pos: nat,
                                            p: Piece, rest: string)
    requires pos <= |fmt| && Lawful(fm) && h.nextId >= MANUAL && fmt[pos..] == Shown(p) + rest
    ensures pos + |Shown(p)| <= |fmt| && fmt[pos + |Shown(p)|..] == rest
    ensures var (text, id) := First(fm, args, p, h.nextId);
            Run(fm, args, fmt, h, pos) ==
            if text.Some? then Run(fm, args, fmt, Context(h.out + text.value, id), pos + |Shown(p)|) else None
  {
    Front(fmt, pos, Shown(p), rest);
    match p
    case Chars(t) => RunChars(fm, args, fmt, h, pos, t, rest);
    case Next => RunNext(fm, args, fmt, h, pos);
    case At(n) =>
      AtIsWritten(fmt, pos, n);
      RunAt(fm, args, fmt, h, pos, n);
  }

  lemma {:induction false} RunPieces<A(!new), T(!new), S(!new)>(fm: Formatting<A, T, S>, args: seq<A>, fmt: string,
                                                                h: Context, pos: nat, pieces: seq<Piece>)
    requires pos <= |fmt| && Lawful(fm) && h.nextId >= MANUAL && fmt[pos..] == Render(pieces)
    ensures Run(fm, args, fmt, h, pos) == After(h.out, Meaning(fm, args, pieces, h.nextId))
    decreases |pieces|
  {
    if pieces == [] {
      assert pos == |fmt|;
      RunAtEnd(fm, args, fmt, h);
      assert h.out + "" == h.out;
    } else {
      RunPiece(fm, args, fmt, h, pos, pieces[0], Render(pieces[1..]));
      MeaningAfter(fm, args, h.out, pieces, h.nextId);
      var (text, id) := First(fm, args, pieces[0], h.nextId);
      if text.Some? {
        RunPieces(fm, args, fmt, Context(h.out + text.value, id), pos + |Shown(pieces[0])|, pieces[1..]);
      }
    }
  }

  function After(before: string, text: Option<string>): Option<string> {
    if text.Some? then Some(before + text.value) else None
  }

  lemma AfterBoth(before: string, t: string, text: Option<string>)
    ensures After(before + t, text) == After(before, After(t, text))
  {
    if text.Some? {
      Regroup(before, t, text.value);
    }
  }

  lemma MeaningAfter<A, T, S>(fm: Formatting<A, T, S>, args: seq<A>, before: string, pieces: seq<Piece>, nextId: int)
    requires pieces != []
    ensures var (text, id) := First(fm, args, pieces[0], nextId);
            After(before, Meaning(fm, args, pieces, nextId)) ==
            if text.Some? then After(before + text.value, Meaning(fm, args, pieces[1..], id)) else None
  {
    var (text, id) := First(fm, args, pieces[0], nextId);
    if text.Some? {
      AfterBoth(before, text.value, Meaning(fm, args, pieces[1..], id));
    }
  }

  lemma AtIsWritten(fmt: string, pos: nat, n: nat)
    requires pos + |Decimal(n)| + 2 <= |fmt| && fmt[pos..pos + |Decimal(n)| + 2] == "{" + Decimal(n) + "}"
    ensures fmt[pos] == '{' && fmt[pos + 1..pos + 1 + |Decimal(n)|] == Decimal(n)
    ensures fmt[pos + 1 + |Decimal(n)|] == '}'
  {
    var shown, digits := fmt[pos..pos + |Decimal(n)| + 2], Decimal(n);
    assert shown[0] == fmt[pos] && shown[1 + |digits|] == fmt[pos + 1 + |digits|];
    forall i | 0 <= i < |digits|
      ensures fmt[pos + 1..pos + 1 + |digits|][i] == digits[i]
    {
      assert shown[1 + i] == fmt[pos + (1 + i)];
    }
  }

  /** The runtime formatter prints what the pieces mean, and fails where they mean nothing. */
  lemma FormatterMeansThePieces<A(!new), T(!new), S(!new)>(fm: Formatting<A, T, S>, args: seq<A>, pieces: seq<Piece>)
    requires Lawful(fm)
    ensures VFormat(fm, args, Render(pieces)) == Meaning(fm, args, pieces, 0)
  {
    var fmt := Render(pieces);
    HandlerBehaves(fm, args, fmt);
    ShortcutAgrees(fm, args, fmt);
    assert fmt[0..] == fmt;
    RunPieces(fm, args, fmt, Context("", 0), 0, pieces);
    var text := Meaning(fm, args, pieces, 0);
    assert text.Some? ==> "" + text.value == text.value;
  }

  /** A field with a number prints that argument, whatever text stands around it. */
  lemma NumberedFieldIsPrinted<A(!new), T(!new), S(!new)>(fm: Formatting<A, T, S>, args: seq<A>, n: nat,
                                                          before: string, after: string)
    requires Lawful(fm) && n < |args| && n <= INT_MAX
    ensures VFormat(fm, args, Escape(before) + "{" + Decimal(n) + "}" + Escape(after))
         == Some(before + fm.default(args[n]) + after)
  {
    var last, rest := [Chars(after)], [At(n), Chars(after)];
    var pieces := [Chars(before)] + rest;
    FormatterMeansThePieces(fm, args, pieces);
    assert last[1..] == [] && rest[1..] == last && pieces[1..] == rest;
    assert Render(last) == Escape(after) && Meaning(fm, args, last, MANUAL) == Some(after) by {
      assert Escape(after) + "" == Escape(after) && after + "" == after;
    }
    assert Meaning(fm, args, rest, 0) == Some(fm.default(args[n]) + after);
    Regroup(before, fm.default(args[n]), after);
    assert Render(rest) == "{" + Decimal(n) + "}" + Escape(after);
    Regroup4(Escape(before), "{", Decimal(n), "}", Escape(after));
  }

  lemma Regroup4<T>(a: seq<T>, b: seq<T>, c: seq<T>, d: seq<T>, e: seq<T>)
    ensures a + b + c + d + e == a + (b + c + d + e)
  {}

  function Fields(k: nat): string { if k == 0 then "" else "{}" + Fields(k - 1) }

  function Defaults<A, T, S>(fm: Formatting<A, T, S>, args: seq<A>): string {
    if args == [] then "" else fm.default(args[0]) + Defaults(fm, args[1..])
  }

  lemma {:induction false} FieldsMeanTheArguments<A, T, S>(fm: Formatting<A, T, S>, args: seq<A>, id: nat, k: nat)
    requires id + k <= |args|
    ensures Render(seq(k, i => Next)) == Fields(k)
    ensures Meaning(fm, args, seq(k, i => Next), id) == Some(Defaults(fm, args[id..id + k]))
    decreases k
  {
    var pieces: seq<Piece> := seq(k, i => Next);
    if k > 0 {
      var rest: seq<Piece> := seq(k - 1, i => Next);
      assert pieces[1..] == rest && pieces[0] == Next;
      FieldsMeanTheArguments(fm, args, id + 1, k - 1);
      assert args[id..id + k][1..] == args[id + 1..id + 1 + (k - 1)];
    }
  }

  /** A row of empty fields prints the first arguments in order. */
  lemma FieldsPrintTheArguments<A(!new), T(!new), S(!new)>(fm: Formatting<A, T, S>, args: seq<A>, k: nat)
    requires Lawful(fm) && k <= |args|
    ensures VFormat(fm, args, Fields(k)) == Some(Defaults(fm, args[..k]))
  {
    FieldsMeanTheArguments(fm, args, 0, k);
    FormatterMeansThePieces(fm, args, seq(k, i => Next));
    assert args[0..0 + k] == args[..k];
  }

  // ---------------------------------------------------------------- nothing else is accepted

  /** The number of a field that the formatter accepts, in the form in which it is written. */
  lemma AcceptedNumber(fmt: string, pos: nat) returns (n: nat)
    requires pos < |fmt| && ParseArgId(fmt, pos).0.Index?
    ensures ParseArgId(fmt, pos).1 == pos + |Decimal(n)| < |fmt|
    ensures fmt[pos..pos + |Decimal(n)|] == Decimal(n)
  {
    var end := ParseArgId(fmt, pos).1;
    var digits := fmt[pos..end];
    if fmt[pos] == '0' {
      assert digits == ['0'];
    } else {
      assert digits[0] == fmt[pos];
    }
    CanonicalDecimal(digits);
    n := Value(digits);
  }

  /** A field that is accepted and has no specifiers is empty or holds a number. */
  lemma AcceptedField<A(!new), T(!new), S(!new)>(fm: Formatting<A, T, S>, args: seq<A>, fmt: string, h: Context,
                                                 pos: nat)
    requires pos < |fmt| && Lawful(fm) && fmt[pos] == '{' && Run(fm, args, fmt, h, pos).Some?
    requires ':' !in fmt
    ensures pos + 1 < |fmt|
    ensures fmt[pos + 1] != '{' && fmt[pos + 1] != '}' ==>
              var (id, end) := ParseArgId(fmt, pos + 1); id.Index? && end < |fmt| && fmt[end] == '}'
  {
    HandlerBehaves(fm, args, fmt);
    assert h.(out := h.out + fmt[pos..pos]) == h;
  }

  lemma {:induction false} ReadPieces<A(!new), T(!new), S(!new)>(fm: Formatting<A, T, S>, args: seq<A>, fmt: string,
                                                                 h: Context, pos: nat) returns (pieces: seq<Piece>)
    requires pos <= |fmt| && Lawful(fm) && h.nextId >= MANUAL && Run(fm, args, fmt, h, pos).Some? && ':' !in fmt
    ensures Render(pieces) == fmt[pos..]
    decreases |fmt| - pos
  {
    if pos == |fmt| {
      return [];
    }
    var p, h', next := ReadOn(fm, args, fmt, h, pos);
    var rest := ReadPieces(fm, args, fmt, h', next);
    pieces := [p] + rest;
    RenderedFirst(fmt, pos, p, rest);
  }

  lemma ReadOn<A(!new), T(!new), S(!new)>(fm: Formatting<A, T, S>, args: seq<A>, fmt: string, h: Context, pos: nat)
    returns (p: Piece, h': Context, next: nat)
    requires pos < |fmt| && Lawful(fm) && h.nextId >= MANUAL && Run(fm, args, fmt, h, pos).Some? && ':' !in fmt
    ensures StandsAt(fmt, pos, p) && next == pos + |Shown(p)| && pos < next <= |fmt|
    ensures h'.nextId >= MANUAL && Run(fm, args, fmt, h', next).Some?
  {
    p := ReadPiece(fm, args, fmt, h, pos);
    h' := GoesOn(fm, args, fmt, h, pos, p);
    next := pos + |Shown(p)|;
  }

  lemma RenderedFirst(fmt: string, pos: nat, p: Piece, rest: seq<Piece>)
    requires StandsAt(fmt, pos, p) && Render(rest) == fmt[pos + |Shown(p)|..]
    ensures Render([p] + rest) == fmt[pos..]
  {
    assert ([p] + rest)[1..] == rest;
    assert fmt[pos..] == fmt[pos..pos + |Shown(p)|] + fmt[pos + |Shown(p)|..];
  }

  /** The formatter goes on behind an accepted piece. */
  lemma GoesOn<A(!new), T(!new), S(!new)>(fm: Formatting<A, T, S>, args: seq<A>, fmt: string, h: Context, pos: nat,
                                          p: Piece) returns (h': Context)
    requires StandsAt(fmt, pos, p) && Lawful(fm) && h.nextId >= MANUAL && Run(fm, args, fmt, h, pos).Some?
    ensures h'.nextId >= MANUAL && Run(fm, args, fmt, h', pos + |Shown(p)|).Some?
  {
    var next := pos + |Shown(p)|;
    assert fmt[pos..] == fmt[pos..next] + fmt[next..];
    RunPiece(fm, args, fmt, h, pos, p, fmt[next..]);
    var (text, id) := First(fm, args, p, h.nextId);
    h' := Context(h.out + text.value, id);
  }

  /** The piece is written at `pos`. */
  predicate StandsAt(fmt: string, pos: nat, p: Piece) {
    Shown(p) != "" && pos + |Shown(p)| <= |fmt| && fmt[pos..pos + |Shown(p)|] == Shown(p)
  }

  lemma CharStandsAt(fmt: string, pos: nat)
    requires pos < |fmt| && (fmt[pos] == '{' || fmt[pos] == '}' ==> pos + 1 < |fmt| && fmt[pos + 1] == fmt[pos])
    ensures StandsAt(fmt, pos, Chars([fmt[pos]]))
  {
    var c := fmt[pos];
    assert [c][1..] == "" && Escape("") == "";
    assert Escape([c]) == (if c == '{' || c == '}' then [c, c] else [c]) + "";
  }

  lemma FieldStandsAt(fmt: string, pos: nat, n: nat)
    requires pos + |Decimal(n)| + 1 < |fmt| && fmt[pos] == '{' && fmt[pos + 1..pos + 1 + |Decimal(n)|] == Decimal(n)
    requires fmt[pos + 1 + |Decimal(n)|] == '}'
    ensures StandsAt(fmt, pos, At(n))
  {
    Bracketed(fmt, pos, Decimal(n));
  }

  lemma Bracketed(fmt: string, pos: nat, inside: string)
    requires pos + |inside| + 1 < |fmt| && fmt[pos] == '{' && fmt[pos + 1..pos + 1 + |inside|] == inside
    requires fmt[pos + 1 + |inside|] == '}'
    ensures fmt[pos..pos + |inside| + 2] == "{" + inside + "}"
  {
    forall i | 0 <= i < |inside|
      ensures fmt[pos + 1 + i] == inside[i]
    {
      assert fmt[pos + 1..pos + 1 + |inside|][i] == inside[i];
    }
  }

  lemma ReadPiece<A(!new), T(!new), S(!new)>(fm: Formatting<A, T, S>, args: seq<A>, fmt: string, h: Context, pos: nat)
    returns (p: Piece)
    requires pos < |fmt| && Lawful(fm) && Run(fm, args, fmt, h, pos).Some? && ':' !in fmt
    ensures StandsAt(fmt, pos, p)
  {
    if fmt[pos] == '{' {
      AcceptedField(fm, args, fmt, h, pos);
      if fmt[pos + 1] != '{' {
        p := ReadField(fmt, pos);
        return;
      }
    } else if fmt[pos] == '}' {
      AcceptedChar(fm, args, fmt, h, pos);
    }
    CharStandsAt(fmt, pos);
    p := Chars([fmt[pos]]);
  }

  lemma ReadField(fmt: string, pos: nat) returns (p: Piece)
    requires pos + 1 < |fmt| && fmt[pos] == '{' && fmt[pos + 1] != '{'
    requires fmt[pos + 1] != '}' ==>
               var (id, end) := ParseArgId(fmt, pos + 1); id.Index? && end < |fmt| && fmt[end] == '}'
    ensures StandsAt(fmt, pos, p)
  {
    if fmt[pos + 1] == '}' {
      p := Next;
    } else {
      var n := AcceptedNumber(fmt, pos + 1);
      FieldStandsAt(fmt, pos, n);
      p := At(n);
    }
  }

  lemma AcceptedChar<A(!new), T(!new), S(!new)>(fm: Formatting<A, T, S>, args: seq<A>, fmt: string, h: Context,
                                                pos: nat)
    requires pos < |fmt| && Lawful(fm) && fmt[pos] == '}' && Run(fm, args, fmt, h, pos).Some?
    ensures pos + 1 < |fmt| && fmt[pos + 1] == '}'
  {
    HandlerBehaves(fm, args, fmt);
  }

  /** A string without a colon is accepted if and only if it is written in pieces that mean something. */
  lemma AcceptedIffWritten<A(!new), T(!new), S(!new)>(fm: Formatting<A, T, S>, args: seq<A>, fmt: string)
    requires Lawful(fm) && ':' !in fmt
    ensures VFormat(fm, args, fmt).Some? <==>
            exists pieces :: Render(pieces) == fmt && Meaning(fm, args, pieces, 0).Some?
  {
    if VFormat(fm, args, fmt).Some? {
      HandlerBehaves(fm, args, fmt);
      ShortcutAgrees(fm, args, fmt);
      var pieces := ReadPieces(fm, args, fmt, Context("", 0), 0);
      assert fmt[0..] == fmt;
      FormatterMeansThePieces(fm, args, pieces);
    }
    forall pieces | Render(pieces) == fmt && Meaning(fm, args, pieces, 0).Some?
      ensures VFormat(fm, args, fmt).Some?
    {
      FormatterMeansThePieces(fm, args, pieces);
    }
  }

  // ---------------------------------------------------------------- dynamic widths

  /** A width in digits is that number, and refused if it is too large. */
  lemma WidthIsRead(fmt: string, pos: nat, n: nat, id: int)
    requires pos + |Decimal(n)| <= |fmt| && fmt[pos..pos + |Decimal(n)|] == Decimal(n)
    requires pos + |Decimal(n)| < |fmt| ==> !IsDigit(fmt[pos + |Decimal(n)|])
    ensures ParseDynamicSpec(fmt, pos, id) ==
            if n <= INT_MAX then Some((Number(n), pos + |Decimal(n)|, id)) else None
  {
    assert fmt[pos] == fmt[pos..pos + |Decimal(n)|][0];
    DigitsEndAt(fmt, pos, pos + |Decimal(n)|);
    DecimalDenotes(n);
    if n <= INT_MAX {
      TenToTheTenth();
      DecimalLength(n, 10);
    }
  }

  /** An empty pair of braces takes the next argument, if arguments are not numbered. */
  lemma NextWidthIsTaken(fmt: string, pos: nat, id: int)
    requires pos + 1 < |fmt| && fmt[pos] == '{' && fmt[pos + 1] == '}'
    ensures ParseDynamicSpec(fmt, pos, id) == if id < 0 then None else Some((FromArg(id), pos + 2, id + 1))
  {}

  /** A number in braces takes that argument, if no automatic one has been taken. */
  lemma NumberedWidthIsTaken(fmt: string, pos: nat, n: nat, id: int)
    requires pos + |Decimal(n)| + 1 < |fmt| && fmt[pos] == '{'
    requires fmt[pos + 1..pos + 1 + |Decimal(n)|] == Decimal(n) && fmt[pos + 1 + |Decimal(n)|] == '}'
    ensures ParseDynamicSpec(fmt, pos, id) ==
            if id > 0 then None else Some((FromArg(Capped(n)), pos + 2 + |Decimal(n)|, MANUAL))
  {
    NumberIsRead(fmt, pos + 1, n);
  }
}
