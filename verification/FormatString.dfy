/**
 The runtime parser of format strings: `parse_nonnegative_int`, argument ids, replacement fields, and
 the two loops of `parse_format_string`, one for strings of less than 32 characters and one built on
 memchr for longer ones. What a handler does with the pieces is left abstract; an error ends parsing,
 as the handlers of the library throw on every error.
 */
module FormatString {
  import opened Wrappers

  // ---------------------------------------------------------------- numbers

  const INT_MAX := 0x7fff_ffff
  const TWO_32 := 0x1_0000_0000

  predicate IsDigit(c: char) { '0' <= c <= '9' }

  function Digit(c: char): nat
    requires IsDigit(c)
  {
    c as int - '0' as int
  }

  predicate AllDigits(s: string) {
    forall i :: 0 <= i < |s| ==> IsDigit(s[i])
  }

  /** The number that a row of digits denotes. */
  function Value(s: string): nat
    requires AllDigits(s)
  {
    if s == [] then 0 else 10 * Value(s[..|s| - 1]) + Digit(s[|s| - 1])
  }

  function DigitChar(d: nat): char
    requires d < 10
  {
    "0123456789"[d]
  }

  /** A number in decimal digits, without leading zeros. */
  function Decimal(n: nat): (s: string)
    ensures s != "" && AllDigits(s)
  {
    if n < 10 then [DigitChar(n)] else Decimal(n / 10) + [DigitChar(n % 10)]
  }

  lemma ValueSnoc(s: string, d: nat)
    requires AllDigits(s) && d < 10
    ensures AllDigits(s + [DigitChar(d)]) && Value(s + [DigitChar(d)]) == Value(s) * 10 + d
  {
    var t := s + [DigitChar(d)];
    assert t[..|t| - 1] == s && t[|t| - 1] == DigitChar(d);
  }

  lemma {:induction false} DecimalDenotes(n: nat)
    ensures Value(Decimal(n)) == n
  {
    if n >= 10 {
      DecimalDenotes(n / 10);
      ValueSnoc(Decimal(n / 10), n % 10);
    } else {
      ValueSnoc("", n);
      assert "" + [DigitChar(n)] == [DigitChar(n)];
    }
  }

  /** Where the row of digits that starts at `pos` ends. */
  function DigitsEnd(fmt: string, pos: nat): (end: nat)
    requires pos <= |fmt|
    ensures pos <= end <= |fmt| && AllDigits(fmt[pos..end])
    ensures end < |fmt| ==> !IsDigit(fmt[end])
    decreases |fmt| - pos
  {
    if pos == |fmt| || !IsDigit(fmt[pos]) then pos
    else
      var end := DigitsEnd(fmt, pos + 1);
      assert fmt[pos..end] == [fmt[pos]] + fmt[pos + 1..end];
      end
  }

  /** The result promised for a row of digits: its value, or the error value when there are more than
      ten digits or the value is no `int`. */
  function Nonnegative(digits: string, errorValue: int): int
    requires AllDigits(digits)
  {
    if |digits| <= 10 && Value(digits) <= INT_MAX then Value(digits) else errorValue
  }

  function Pow10(n: nat): nat { if n == 0 then 1 else 10 * Pow10(n - 1) }

  lemma {:induction false} ValueBelow(s: string)
    requires AllDigits(s)
    ensures Value(s) < Pow10(|s|)
  {
    if s != [] {
      ValueBelow(s[..|s| - 1]);
    }
  }

  lemma NineDigits(s: string)
    requires AllDigits(s) && |s| <= 9
    ensures Value(s) < 1_000_000_000
  {
    ValueBelow(s);
    Pow10Monotone(|s|, 9);
    assert Pow10(9) == 1_000_000_000 by {
      assert Pow10(3) == 1000 && Pow10(6) == 1000 * Pow10(3);
    }
  }

  lemma {:induction false} Pow10Monotone(m: nat, n: nat)
    requires m <= n
    ensures Pow10(m) <= Pow10(n)
  {
    if m < n {
      Pow10Monotone(m, n - 1);
    }
  }

  /** `unsigned` arithmetic: one more digit, modulo 2^32. */
  lemma AppendDigit(v: nat, d: nat)
    ensures (v % TWO_32 * 10 + d) % TWO_32 == (10 * v + d) % TWO_32
  {
    var q := v / TWO_32;
    assert 10 * v + d == TWO_32 * (10 * q) + (v % TWO_32 * 10 + d);
  }

  /** `parse_nonnegative_int`, with the wrap-around of its accumulator. */
  method ParseNonnegativeInt(fmt: string, begin: nat, errorValue: int) returns (result: int, end: nat)
    requires begin < |fmt| && IsDigit(fmt[begin])
    ensures end == DigitsEnd(fmt, begin)
    ensures result == Nonnegative(fmt[begin..end], errorValue)
  {
    var value, prev, p := 0, 0, begin;
    while true
      invariant begin <= p < |fmt| && IsDigit(fmt[p]) && AllDigits(fmt[begin..p])
      invariant value == Value(fmt[begin..p]) % TWO_32
      invariant DigitsEnd(fmt, begin) == DigitsEnd(fmt, p)
      decreases |fmt| - p
    {
      prev := value;
      AppendDigit(Value(fmt[begin..p]), Digit(fmt[p]));
      assert fmt[begin..p + 1][..p - begin] == fmt[begin..p];
      value := (value * 10 + Digit(fmt[p])) % TWO_32;
      p := p + 1;
      if p == |fmt| || !IsDigit(fmt[p]) {
        break;
      }
    }
    end := p;
    var numDigits := p - begin;
    ghost var digits := fmt[begin..p];
    assert digits[..numDigits - 1] == fmt[begin..p - 1];
    OverflowDecision(digits, value, prev, errorValue);
    result := if numDigits <= 9 then value
              else if numDigits == 10 && prev * 10 + Digit(fmt[p - 1]) <= INT_MAX then value
              else errorValue;
  }

  /** The check for overflow, from the wrapped accumulator before and after the last digit. */
  lemma OverflowDecision(digits: string, value: nat, prev: nat, errorValue: int)
    requires AllDigits(digits) && digits != "" && value == Value(digits) % TWO_32
    requires prev == Value(digits[..|digits| - 1]) % TWO_32
    ensures Nonnegative(digits, errorValue) ==
            if |digits| <= 9 then value
            else if |digits| == 10 && prev * 10 + Digit(digits[|digits| - 1]) <= INT_MAX then value
            else errorValue
  {
    if |digits| <= 9 {
      NineDigits(digits);
    } else if |digits| == 10 {
      NineDigits(digits[..9]);
      TenDigits(Value(digits), Value(digits[..9]), Digit(digits[9]));
    }
  }

  lemma TenDigits(v: nat, front: nat, last: nat)
    requires v == 10 * front + last && front < TWO_32
    ensures front * 10 + last <= INT_MAX ==> v % TWO_32 == v
    ensures front % TWO_32 == front
  {}

  /** The overflow check is exact except for leading zeros: a number that is small enough is turned away
      exactly when it is written with more than ten digits. */
  lemma OverflowCheckIsExact(digits: string, errorValue: int)
    requires AllDigits(digits) && errorValue != Value(digits)
    ensures Nonnegative(digits, errorValue) == (if Value(digits) <= INT_MAX then Value(digits) else errorValue)
            <==> |digits| <= 10 || Value(digits) > INT_MAX
  {
  }

  /** 00000000001 is refused although it denotes 1. */
  lemma LeadingZerosAreRefused()
    ensures AllDigits("00000000001") && Value("00000000001") == 1 && Nonnegative("00000000001", -1) == -1
  {
    ZerosDenoteZero("0000000000");
    assert "00000000001"[..10] == "0000000000";
  }

  lemma {:induction false} ZerosDenoteZero(s: string)
    requires forall i :: 0 <= i < |s| ==> s[i] == '0'
    ensures AllDigits(s) && Value(s) == 0
  {
    if s != [] {
      ZerosDenoteZero(s[..|s| - 1]);
    }
  }

  // ---------------------------------------------------------------- argument ids

  predicate IsNameStart(c: char) {
    'a' <= c <= 'z' || 'A' <= c <= 'Z' || c == '_'
  }

  predicate IsNameChar(c: char) { IsNameStart(c) || IsDigit(c) }

  function NameEnd(fmt: string, pos: nat): (end: nat)
    requires pos <= |fmt|
    ensures pos <= end <= |fmt|
    decreases |fmt| - pos
  {
    if pos == |fmt| || !IsNameChar(fmt[pos]) then pos else NameEnd(fmt, pos + 1)
  }

  datatype ArgId = Auto | Index(n: int) | Name(id: string) | Malformed

  /** `parse_arg_id`: the id that starts at `pos` and the position behind it. */
  function ParseArgId(fmt: string, pos: nat): (result: (ArgId, nat))
    requires pos < |fmt|
    ensures pos <= result.1 <= |fmt|
  {
    var c := fmt[pos];
    if c == '}' || c == ':' then (Auto, pos)
    else if IsDigit(c) then
      var end := if c == '0' then pos + 1 else DigitsEnd(fmt, pos);
      if end == |fmt| || (fmt[end] != '}' && fmt[end] != ':') then (Malformed, end)
      else (Index(if c == '0' then 0 else Nonnegative(fmt[pos..end], INT_MAX)), end)
    else if IsNameStart(c) then
      var end := NameEnd(fmt, pos + 1);
      (Name(fmt[pos..end]), end)
    else (Malformed, pos)
  }

  // ---------------------------------------------------------------- handlers

  /** What the parser calls back; None is a thrown error. `onSpecs` gets the position behind the colon
      and returns the position at which it stopped. */
  datatype Handler<!H> = Handler(
    onText: (H, string) -> H,
    onAutoId: H -> Option<(H, int)>,
    onIndex: (H, int) -> Option<(H, int)>,
    onName: (H, string) -> Option<(H, int)>,
    onField: (H, int, nat) -> Option<H>,
    onSpecs: (H, int, nat) -> Option<(H, nat)>)

  /** Iterators returned by a handler stay inside the part of the string it was given. */
  ghost predicate StaysInside<H(!new)>(hd: Handler<H>, fmt: string) {
    forall h: H, id: int, pos: nat :: pos <= |fmt| && hd.onSpecs(h, id, pos).Some? ==>
      pos <= hd.onSpecs(h, id, pos).value.1 <= |fmt|
  }

  /** Passing an empty piece of text changes nothing. */
  ghost predicate IgnoresEmptyText<H(!new)>(hd: Handler<H>) {
    forall h :: hd.onText(h, "") == h
  }

  datatype Error = InvalidFormatString | UnmatchedBrace | UnknownSpecifier | MissingBrace | Thrown

  /** The handler's state at the end, or when the first error occurred. */
  datatype Outcome<H> = Done(h: H) | Failed(h: H, error: Error)

  datatype FieldResult<H> = Continue(h: H, pos: nat) | Stop(h: H, error: Error)

  function OnArgId<H>(hd: Handler<H>, h: H, id: ArgId): Option<(H, int)> {
    match id
    case Auto => hd.onAutoId(h)
    case Index(n) => hd.onIndex(h, n)
    case Name(name) => hd.onName(h, name)
    case Malformed => None
  }

  /** `parse_replacement_field`, called at an opening brace. */
  function ParseReplacementField<H(!new)>(hd: Handler<H>, fmt: string, h: H, open: nat): (r: FieldResult<H>)
    requires open < |fmt| && fmt[open] == '{' && StaysInside(hd, fmt)
    ensures r.Continue? ==> open + 1 < r.pos <= |fmt|
  {
    var begin := open + 1;
    if begin == |fmt| then Stop(h, InvalidFormatString)
    else if fmt[begin] == '}' then
      (match hd.onAutoId(h)
       case None => Stop(h, Thrown)
       case Some((h1, id)) =>
         match hd.onField(h1, id, begin)
         case None => Stop(h1, Thrown)
         case Some(h2) => Continue(h2, begin + 1))
    else if fmt[begin] == '{' then Continue(hd.onText(h, "{"), begin + 1)
    else
      var (argId, end) := ParseArgId(fmt, begin);
      match OnArgId(hd, h, argId)
      case None => Stop(h, Thrown)
      case Some((h1, id)) =>
        if end < |fmt| && fmt[end] == '}' then
          (match hd.onField(h1, id, end)
           case None => Stop(h1, Thrown)
           case Some(h2) => Continue(h2, end + 1))
        else if end < |fmt| && fmt[end] == ':' then
          (match hd.onSpecs(h1, id, end + 1)
           case None => Stop(h1, Thrown)
           case Some((h2, stop)) =>
             if stop == |fmt| || fmt[stop] != '}' then Stop(h2, UnknownSpecifier) else Continue(h2, stop + 1))
        else Stop(h1, MissingBrace)
  }

  // ---------------------------------------------------------------- the simple loop

  /** The rest of a parse: the text from `begin` on has not been passed to the handler yet, and the
      characters before `p` have been looked at. */
  function Parse<H(!new)>(hd: Handler<H>, fmt: string, h: H, begin: nat, p: nat): Outcome<H>
    requires begin <= p <= |fmt| && StaysInside(hd, fmt)
    decreases |fmt| - p
  {
    if p == |fmt| then Done(hd.onText(h, fmt[begin..]))
    else if fmt[p] == '{' then
      (match ParseReplacementField(hd, fmt, hd.onText(h, fmt[begin..p]), p)
       case Stop(h', error) => Failed(h', error)
       case Continue(h', next) => Parse(hd, fmt, h', next, next))
    else if fmt[p] == '}' then
      if p + 1 == |fmt| || fmt[p + 1] != '}' then Failed(h, UnmatchedBrace)
      else Parse(hd, fmt, hd.onText(h, fmt[begin..p + 1]), p + 2, p + 2)
    else Parse(hd, fmt, h, begin, p + 1)
  }

  /** The loop used for short strings. */
  method ParseShort<H(!new)>(hd: Handler<H>, fmt: string, h0: H) returns (out: Outcome<H>)
    requires StaysInside(hd, fmt)
    ensures out == Parse(hd, fmt, h0, 0, 0)
  {
    var h, begin, p := h0, 0, 0;
    while p != |fmt|
      invariant begin <= p <= |fmt|
      invariant Parse(hd, fmt, h, begin, p) == Parse(hd, fmt, h0, 0, 0)
      decreases |fmt| - p
    {
      var c := fmt[p];
      p := p + 1;
      if c == '{' {
        h := hd.onText(h, fmt[begin..p - 1]);
        var r := ParseReplacementField(hd, fmt, h, p - 1);
        match r {
          case Stop(h', error) => return Failed(h', error);
          case Continue(h', next) =>
            h, begin, p := h', next, next;
        }
      } else if c == '}' {
        if p == |fmt| || fmt[p] != '}' {
          return Failed(h, UnmatchedBrace);
        }
        h := hd.onText(h, fmt[begin..p]);
        p := p + 1;
        begin := p;
      }
    }
    out := Done(hd.onText(h, fmt[begin..]));
  }

  // ---------------------------------------------------------------- the memchr loop

  /** `memchr` on the range [first, last). */
  method Find(fmt: string, first: nat, last: nat, c: char) returns (found: Option<nat>)
    requires first <= last <= |fmt|
    ensures found.Some? ==> first <= found.value < last && fmt[found.value] == c && c !in fmt[first..found.value]
    ensures found.None? ==> c !in fmt[first..last]
  {
    var i := first;
    while i != last
      invariant first <= i <= last && c !in fmt[first..i]
    {
      if fmt[i] == c {
        return Some(i);
      }
      i := i + 1;
    }
    return None;
  }

  /** What the writer does with a stretch of text without opening braces: pass it on in pieces that end
      at doubled closing braces. The last piece may be empty, except when the whole stretch is. */
  function WriteText<H>(hd: Handler<H>, fmt: string, h: H, from: nat, p: nat, limit: nat): Outcome<H>
    requires from <= p <= limit <= |fmt|
    decreases limit - p
  {
    if p == limit then Done(hd.onText(h, fmt[from..limit]))
    else if fmt[p] == '}' then
      if p + 1 == limit || fmt[p + 1] != '}' then Failed(h, UnmatchedBrace)
      else WriteText(hd, fmt, hd.onText(h, fmt[from..p + 1]), p + 2, p + 2, limit)
    else WriteText(hd, fmt, h, from, p + 1, limit)
  }

  lemma {:induction false} SkipToBrace<H>(hd: Handler<H>, fmt: string, h: H, from: nat, p: nat, next: nat, limit: nat)
    requires from <= p <= next <= limit <= |fmt| && '}' !in fmt[p..next]
    ensures WriteText(hd, fmt, h, from, p, limit) == WriteText(hd, fmt, h, from, next, limit)
    decreases next - p
  {
    if p < next {
      assert fmt[p] == fmt[p..next][0] && fmt[p..next][1..] == fmt[p + 1..next];
      SkipToBrace(hd, fmt, h, from, p + 1, next, limit);
    }
  }

  method Write<H>(hd: Handler<H>, fmt: string, h0: H, begin: nat, limit: nat) returns (out: Outcome<H>)
    requires begin <= limit <= |fmt|
    ensures out == if begin == limit then Done(h0) else WriteText(hd, fmt, h0, begin, begin, limit)
  {
    if begin == limit {
      return Done(h0);
    }
    var h, from := h0, begin;
    while true
      invariant begin <= from <= limit
      invariant WriteText(hd, fmt, h, from, from, limit) == WriteText(hd, fmt, h0, begin, begin, limit)
      decreases limit - from
    {
      var found := Find(fmt, from, limit, '}');
      if found.None? {
        SkipToBrace(hd, fmt, h, from, from, limit, limit);
        return Done(hd.onText(h, fmt[from..limit]));
      }
      SkipToBrace(hd, fmt, h, from, from, found.value, limit);
      var p := found.value + 1;
      if p == limit || fmt[p] != '}' {
        return Failed(h, UnmatchedBrace);
      }
      h := hd.onText(h, fmt[from..p]);
      from := p + 1;
    }
  }

  /** Between two opening braces the simple loop does what the writer does. */
  lemma {:induction false} TextIsWritten<H(!new)>(hd: Handler<H>, fmt: string, h: H, begin: nat, p: nat, limit: nat)
    requires begin <= p <= limit <= |fmt| && StaysInside(hd, fmt)
    requires '{' !in fmt[p..limit] && (limit < |fmt| ==> fmt[limit] == '{')
    ensures Parse(hd, fmt, h, begin, p)
         == match WriteText(hd, fmt, h, begin, p, limit)
            case Failed(h', error) => Failed(h', error)
            case Done(h') =>
              (if limit == |fmt| then Done(h')
               else match ParseReplacementField(hd, fmt, h', limit)
                 case Stop(h'', error) => Failed(h'', error)
                 case Continue(h'', next) => Parse(hd, fmt, h'', next, next))
    decreases limit - p
  {
    assert fmt[begin..|fmt|] == fmt[begin..];
    if p < limit {
      assert fmt[p] == fmt[p..limit][0] && fmt[p..limit][1..] == fmt[p + 1..limit];
      if fmt[p] != '}' {
        TextIsWritten(hd, fmt, h, begin, p + 1, limit);
      } else if p + 1 < limit && fmt[p + 1] == '}' {
        assert fmt[p..limit][2..] == fmt[p + 2..limit];
        TextIsWritten(hd, fmt, hd.onText(h, fmt[begin..p + 1]), p + 2, p + 2, limit);
      }
    }
  }

  /** The first opening brace from `pos` on, or the end. */
  function NextOpen(fmt: string, pos: nat): (p: nat)
    requires pos <= |fmt|
    ensures pos <= p <= |fmt| && '{' !in fmt[pos..p]
    ensures p < |fmt| ==> fmt[p] == '{'
    decreases |fmt| - pos
  {
    if pos == |fmt| || fmt[pos] == '{' then pos
    else
      var p := NextOpen(fmt, pos + 1);
      assert fmt[pos..p] == [fmt[pos]] + fmt[pos + 1..p];
      p
  }

  lemma {:induction false} NextOpenIsFirst(fmt: string, pos: nat, p: nat)
    requires pos <= p <= |fmt| && '{' !in fmt[pos..p] && (p < |fmt| ==> fmt[p] == '{')
    ensures NextOpen(fmt, pos) == p
    decreases p - pos
  {
    if pos < p {
      assert fmt[pos] == fmt[pos..p][0] && fmt[pos..p][1..] == fmt[pos + 1..p];
      NextOpenIsFirst(fmt, pos + 1, p);
    }
  }

  /** The rest of a parse by stretches of text and replacement fields in turn. */
  function ParseStretches<H(!new)>(hd: Handler<H>, fmt: string, h: H, begin: nat): Outcome<H>
    requires begin <= |fmt| && StaysInside(hd, fmt)
    decreases |fmt| - begin
  {
    if begin == |fmt| then Done(h)
    else
      var p := NextOpen(fmt, begin);
      match if begin == p then Done(h) else WriteText(hd, fmt, h, begin, begin, p)
      case Failed(h1, error) => Failed(h1, error)
      case Done(h1) =>
        if p == |fmt| then Done(h1)
        else match ParseReplacementField(hd, fmt, h1, p)
          case Stop(h2, error) => Failed(h2, error)
          case Continue(h2, next) => ParseStretches(hd, fmt, h2, next)
  }

  /** The loop used for long strings. */
  method ParseLong<H(!new)>(hd: Handler<H>, fmt: string, h0: H) returns (out: Outcome<H>)
    requires StaysInside(hd, fmt)
    ensures out == ParseStretches(hd, fmt, h0, 0)
  {
    var h, begin := h0, 0;
    while begin != |fmt|
      invariant begin <= |fmt|
      invariant ParseStretches(hd, fmt, h, begin) == ParseStretches(hd, fmt, h0, 0)
      decreases |fmt| - begin
    {
      var p := begin;
      if fmt[begin] != '{' {
        var found := Find(fmt, begin + 1, |fmt|, '{');
        p := if found.Some? then found.value else |fmt|;
        assert fmt[begin..p] == [fmt[begin]] + fmt[begin + 1..p];
      }
      NextOpenIsFirst(fmt, begin, p);
      var written := Write(hd, fmt, h, begin, p);
      if p == |fmt| || written.Failed? {
        return written;
      }
      h := written.h;
      var r := ParseReplacementField(hd, fmt, h, p);
      match r {
        case Stop(h', error) => return Failed(h', error);
        case Continue(h', next) =>
          h, begin := h', next;
      }
    }
    out := Done(h);
  }

  // ---------------------------------------------------------------- the two loops agree

  /** Both loops make the same calls of the handler, in the same order, up to and including the first
      error, apart from empty pieces of text. */
  lemma {:induction false} LoopsAgree<H(!new)>(hd: Handler<H>, fmt: string, h: H, begin: nat)
    requires begin <= |fmt| && StaysInside(hd, fmt) && IgnoresEmptyText(hd)
    ensures ParseStretches(hd, fmt, h, begin) == Parse(hd, fmt, h, begin, begin)
    decreases |fmt| - begin
  {
    assert fmt[|fmt|..] == "" && fmt[begin..begin] == "";
    if begin < |fmt| {
      var p := NextOpen(fmt, begin);
      TextIsWritten(hd, fmt, h, begin, begin, p);
      var written := if begin == p then Done(h) else WriteText(hd, fmt, h, begin, begin, p);
      if written.Done? && p < |fmt| {
        var r := ParseReplacementField(hd, fmt, written.h, p);
        if r.Continue? {
          LoopsAgree(hd, fmt, r.h, r.pos);
        }
      }
    }
  }

  /** For a handler, the two loops cannot be told apart exactly when empty text means nothing to it. */
  lemma LoopsAgreeExactlyWhen<H(!new)>(hd: Handler<H>)
    requires forall fmt :: StaysInside(hd, fmt)
    ensures (forall fmt, h :: ParseStretches(hd, fmt, h, 0) == Parse(hd, fmt, h, 0, 0)) <==> IgnoresEmptyText(hd)
  {
    if IgnoresEmptyText(hd) {
      forall fmt, h
        ensures ParseStretches(hd, fmt, h, 0) == Parse(hd, fmt, h, 0, 0)
      {
        LoopsAgree(hd, fmt, h, 0);
      }
    } else {
      var h :| hd.onText(h, "") != h;
      assert ""[0..] == "";
      assert ParseStretches(hd, "", h, 0) != Parse(hd, "", h, 0, 0);
    }
  }

  /** `parse_format_string`: the length of the string decides which loop runs, and that is all it does. */
  method ParseFormatString<H(!new)>(hd: Handler<H>, fmt: string, h0: H) returns (out: Outcome<H>)
    requires StaysInside(hd, fmt)
    ensures out == if |fmt| < 32 then Parse(hd, fmt, h0, 0, 0) else ParseStretches(hd, fmt, h0, 0)
    ensures IgnoresEmptyText(hd) ==> out == Parse(hd, fmt, h0, 0, 0)
  {
    if |fmt| < 32 {
      out := ParseShort(hd, fmt, h0);
    } else {
      out := ParseLong(hd, fmt, h0);
      if IgnoresEmptyText(hd) {
        LoopsAgree(hd, fmt, h0, 0);
      }
    }
  }

  // ---------------------------------------------------------------- escaping

  /** Text with its braces doubled. */
  function Escape(t: string): string {
    if t == "" then ""
    else (if t[0] == '{' || t[0] == '}' then [t[0], t[0]] else [t[0]]) + Escape(t[1..])
  }

  /** A handler that collects text and has no arguments. */
  function Collector(): Handler<string> {
    Handler((h: string, s) => h + s, h => None, (h, n) => None, (h, name) => None,
            (h, id, pos) => None, (h, id, pos) => None)
  }

  lemma {:induction false} ParseEscaped(fmt: string, h: string, begin: nat, p: nat, t: string)
    requires begin <= p <= |fmt| && fmt[p..] == Escape(t)
    ensures Parse(Collector(), fmt, h, begin, p) == Done(h + fmt[begin..p] + t)
    decreases |fmt| - p
  {
    if t == "" {
      assert |fmt[p..]| == 0;
      assert fmt[begin..p] == fmt[begin..];
      assert h + fmt[begin..p] + t == h + fmt[begin..];
    } else {
      var c := t[0];
      assert fmt[p] == fmt[p..][0] == c;
      if c == '{' || c == '}' {
        assert fmt[p + 1] == fmt[p..][1] == c;
        assert fmt[p + 2..] == fmt[p..][2..] == Escape(t[1..]);
        var h' := h + fmt[begin..p] + [c];
        ParseEscaped(fmt, h', p + 2, p + 2, t[1..]);
        assert h + (fmt[begin..p] + [c]) == h' && fmt[begin..p + 1] == fmt[begin..p] + [c];
        assert h' + fmt[p + 2..p + 2] + t[1..] == h + fmt[begin..p] + t;
      } else {
        assert fmt[p + 1..] == fmt[p..][1..] == Escape(t[1..]);
        ParseEscaped(fmt, h, begin, p + 1, t[1..]);
        assert h + fmt[begin..p + 1] + t[1..] == h + fmt[begin..p] + t;
      }
    }
  }

  /** Parsing undoes escaping, for every text. */
  lemma EscapeRoundTrip(t: string)
    ensures Parse(Collector(), Escape(t), "", 0, 0) == Done(t)
  {
    ParseEscaped(Escape(t), "", 0, 0, t);
    assert "" + Escape(t)[0..0] + t == t;
  }
}
