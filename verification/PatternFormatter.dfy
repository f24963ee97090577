/**
 Log patterns: the pad-spec parser, the compiler from a pattern to a list of formatters, and the padder.
 What a flag prints for a message is a parameter.
 */
module PatternFormatter {
  import opened Wrappers
  import opened FormatString

  // ---------------------------------------------------------------- pad specs

  datatype PadSide = Left | Right | Center

  datatype PaddingInfo = PaddingInfo(width: nat, side: PadSide, truncate: bool, enabled: bool)

  const NO_PADDING := PaddingInfo(0, Left, false, false)

  const MAX_WIDTH := 64
  const SIZE_MODULUS := 0x1_0000_0000_0000_0000

  type Digits = s: string | AllDigits(s)

  /** A pad spec as it is written. */
  datatype PadText = PadText(side: string, digits: Digits, bang: bool)

  function Show(p: PadText): string { p.side + p.digits + if p.bang then "!" else "" }

  /** A pad spec that reads back as itself in front of `rest`. */
  predicate IsPad(p: PadText, rest: string) {
    (p.side == "" || p.side == "-" || p.side == "=") && (p.bang ==> p.digits != "") &&
    (rest != "" ==>
       (p.side == "" && p.digits == "" ==> rest[0] != '-' && rest[0] != '=') &&
       (!p.bang ==> !IsDigit(rest[0])) &&
       (p.digits != "" && !p.bang ==> rest[0] != '!'))
  }

  function Width(digits: Digits): (w: nat)
    ensures w <= MAX_WIDTH
  {
    var width := Value(digits) % SIZE_MODULUS;
    if width < MAX_WIDTH then width else MAX_WIDTH
  }

  /** The width is the one written, cut to 64, unless the 64-bit number wraps to less than that. */
  lemma WhenTheWidthIsRight(digits: Digits)
    ensures var v := Value(digits);
            Width(digits) == (if v < MAX_WIDTH then v else MAX_WIDTH)
            <==> v < MAX_WIDTH || v % SIZE_MODULUS >= MAX_WIDTH
  {
    var v := Value(digits);
    if v < MAX_WIDTH {
      assert v % SIZE_MODULUS == v;
    }
  }

  /** 2^64 in digits, 18446744073709551616, asks for no width at all. */
  lemma WidthWraps()
    ensures Width(Decimal(SIZE_MODULUS)) == 0 && Value(Decimal(SIZE_MODULUS)) >= MAX_WIDTH
  {
    DecimalDenotes(SIZE_MODULUS);
  }

  /** So up to nineteen digits are safe. */
  lemma NineteenDigitsAreSafe(digits: Digits)
    requires |digits| <= 19
    ensures Width(digits) == if Value(digits) < MAX_WIDTH then Value(digits) else MAX_WIDTH
  {
    ValueBelow(digits);
    PowerGrows(|digits|, 19);
    assert Value(digits) % SIZE_MODULUS == Value(digits);
  }

  lemma {:induction false} PowerGrows(m: nat, n: nat)
    requires m <= n
    ensures Pow10(m) <= Pow10(n)
    ensures n == 19 ==> Pow10(n) == 10_000_000_000_000_000_000
  {
    if m < n {
      PowerGrows(m, n - 1);
    } else if n > 0 {
      PowerGrows(m - 1, n - 1);
    }
    if n == 19 {
      assert Pow10(6) == 1_000_000;
      assert Pow10(12) == 1_000_000_000_000;
      assert Pow10(18) == 1_000_000_000_000_000_000;
    }
  }

  function SideOf(side: string): PadSide {
    if side == "-" then Right else if side == "=" then Center else Left
  }

  function PaddingOf(p: PadText): (r: PaddingInfo)
    ensures r.width <= MAX_WIDTH
  {
    if p.digits == "" then NO_PADDING else PaddingInfo(Width(p.digits), SideOf(p.side), p.bang, true)
  }

  function DigitPrefix(s: string): (n: nat)
    ensures n <= |s| && AllDigits(s[..n])
    ensures n < |s| ==> !IsDigit(s[n])
  {
    if s == "" || !IsDigit(s[0]) then 0
    else
      var n := DigitPrefix(s[1..]);
      assert s[..n + 1] == [s[0]] + s[1..][..n];
      n + 1
  }

  function SideText(s: string): (side: string)
    ensures |side| <= |s|
  {
    if s != "" && (s[0] == '-' || s[0] == '=') then s[..1] else ""
  }

  /** The width and the mark at the start of `s`, and what follows them. */
  function SplitWidth(s: string): (r: (Digits, bool, string))
    ensures |r.2| <= |s|
  {
    var n := DigitPrefix(s);
    if 0 < n < |s| && s[n] == '!' then (s[..n], true, s[n + 1..]) else (s[..n], false, s[n..])
  }

  /** The pad spec at the start of `s`, and what follows it. */
  function SplitPad(s: string): (r: (PadText, string))
    ensures |r.1| <= |s|
  {
    var side := SideText(s);
    var (digits, bang, rest) := SplitWidth(s[|side|..]);
    (PadText(side, digits, bang), rest)
  }

  lemma WidthIsLossless(s: string)
    ensures var (digits, bang, rest) := SplitWidth(s);
            (bang ==> digits != "") && digits + (if bang then "!" else "") + rest == s &&
            (rest != "" && !bang ==> !IsDigit(rest[0]) && (digits != "" ==> rest[0] != '!'))
  {}

  /** The spec and the rest are the whole of `s`, and the spec reads back. */
  lemma PadIsLossless(s: string)
    ensures var (pad, rest) := SplitPad(s); Show(pad) + rest == s && IsPad(pad, rest)
  {
    var (pad, rest) := SplitPad(s);
    SideIsLossless(s);
    WidthIsLossless(s[|pad.side|..]);
    var mark := if pad.bang then "!" else "";
    Regroup(pad.side, pad.digits + mark, rest);
    Regroup(pad.side, pad.digits, mark);
    if pad.side == "" && pad.digits == "" {
      assert "" + "" + rest == rest && s[0..] == s;
    }
  }

  lemma SideIsLossless(s: string)
    ensures var side := SideText(s);
            (side == "" || side == "-" || side == "=") && s == side + s[|side|..] &&
            (side == "" && s != "" ==> s[0] != '-' && s[0] != '=')
  {}

  lemma {:induction false} DigitPrefixOf(digits: string, rest: string)
    requires AllDigits(digits) && (rest == "" || !IsDigit(rest[0]))
    ensures DigitPrefix(digits + rest) == |digits|
  {
    if digits == "" {
      assert digits + rest == rest;
    } else {
      DigitPrefixOf(digits[1..], rest);
      assert (digits + rest)[1..] == digits[1..] + rest;
    }
  }

  lemma WidthReadsBack(digits: Digits, bang: bool, rest: string)
    requires (bang ==> digits != "")
    requires rest != "" && !bang ==> !IsDigit(rest[0]) && (digits != "" ==> rest[0] != '!')
    ensures SplitWidth(digits + (if bang then "!" else "") + rest) == (digits, bang, rest)
  {
    var mark := if bang then "!" else "";
    var s := digits + mark + rest;
    assert s == digits + (mark + rest);
    DigitPrefixOf(digits, mark + rest);
    assert s[..|digits|] == digits && s[|digits|..] == mark + rest;
    if bang {
      assert s[|digits| + 1..] == rest;
    }
  }

  /** There is only one way to read a pad spec. */
  lemma PadReadsBack(p: PadText, rest: string)
    requires IsPad(p, rest)
    ensures SplitPad(Show(p) + rest) == (p, rest)
  {
    var width := p.digits + (if p.bang then "!" else "") + rest;
    assert Show(p) + rest == p.side + width;
    WidthReadsBack(p.digits, p.bang, rest);
    if width != "" && p.side == "" {
      assert width[0] == if p.digits != "" then p.digits[0] else rest[0];
    }
    SideReadsBack(p.side, width);
  }

  lemma SideReadsBack(side: string, width: string)
    requires side == "" || side == "-" || side == "="
    requires side == "" && width != "" ==> width[0] != '-' && width[0] != '='
    ensures SideText(side + width) == side && (side + width)[|side|..] == width
  {
    if side == "" {
      assert side + width == width;
    }
  }

  lemma WrapStep(digits: string, c: char)
    requires AllDigits(digits) && IsDigit(c)
    ensures AllDigits(digits + [c])
    ensures Value(digits + [c]) % SIZE_MODULUS == (Value(digits) % SIZE_MODULUS * 10 + Digit(c)) % SIZE_MODULUS
  {
    var s := digits + [c];
    assert s[..|s| - 1] == digits;
    var v := Value(digits);
    assert v == v / SIZE_MODULUS * SIZE_MODULUS + v % SIZE_MODULUS;
    Reduce(10 * (v / SIZE_MODULUS), v % SIZE_MODULUS * 10 + Digit(c));
  }

  lemma {:induction false} Reduce(k: nat, n: nat)
    ensures (k * SIZE_MODULUS + n) % SIZE_MODULUS == n % SIZE_MODULUS
  {
    if k > 0 {
      Reduce(k - 1, n);
      assert (k * SIZE_MODULUS + n) == ((k - 1) * SIZE_MODULUS + n) + SIZE_MODULUS;
      var m := (k - 1) * SIZE_MODULUS + n;
      assert (m + SIZE_MODULUS) % SIZE_MODULUS == m % SIZE_MODULUS;
    }
  }

  /** The digits from `start` to `it` have been read into `width`. */
  ghost predicate HasRead(pattern: string, start: nat, it: nat, width: nat) {
    start <= it <= |pattern| &&
    DigitPrefix(pattern[start..]) == it - start + DigitPrefix(pattern[it..]) &&
    AllDigits(pattern[start..it]) && width == Value(pattern[start..it]) % SIZE_MODULUS
  }

  function NextWidth(width: nat, c: char): nat
    requires IsDigit(c)
  {
    (width * 10 + Digit(c)) % SIZE_MODULUS
  }

  lemma ReadFirst(pattern: string, start: nat)
    requires start < |pattern| && IsDigit(pattern[start])
    ensures HasRead(pattern, start, start + 1, Digit(pattern[start]))
  {
    assert pattern[start..start] == "";
    ReadOneMore(pattern, start, start, 0);
  }

  lemma ReadAll(pattern: string, start: nat, it: nat, width: nat)
    requires HasRead(pattern, start, it, width) && (it < |pattern| ==> !IsDigit(pattern[it]))
    ensures var n := DigitPrefix(pattern[start..]);
            n == it - start && pattern[start..][..n] == pattern[start..it] && pattern[start..][n..] == pattern[it..]
  {
    assert DigitPrefix(pattern[it..]) == 0;
  }

  lemma ReadOneMore(pattern: string, start: nat, it: nat, width: nat)
    requires HasRead(pattern, start, it, width) && it < |pattern| && IsDigit(pattern[it])
    ensures HasRead(pattern, start, it + 1, NextWidth(width, pattern[it]))
  {
    WrapStep(pattern[start..it], pattern[it]);
    assert pattern[start..it] + [pattern[it]] == pattern[start..it + 1];
    assert pattern[it..][1..] == pattern[it + 1..];
  }

  /** The digit loop: where it stops, and the number it has in its 64-bit accumulator. */
  method ReadWidth(pattern: string, start: nat) returns (width: nat, it: nat)
    requires start < |pattern| && IsDigit(pattern[start])
    ensures HasRead(pattern, start, it, width) && (it < |pattern| ==> !IsDigit(pattern[it]))
  {
    ReadFirst(pattern, start);
    width := Digit(pattern[start]);
    it := start + 1;
    while it < |pattern| && IsDigit(pattern[it])
      invariant HasRead(pattern, start, it, width)
    {
      ReadOneMore(pattern, start, it, width);
      width := NextWidth(width, pattern[it]);
      it := it + 1;
    }
  }

  method HandlePadspec(pattern: string, start: nat) returns (padding: PaddingInfo, it: nat)
    requires start <= |pattern|
    ensures start <= it <= |pattern|
    ensures padding == PaddingOf(SplitPad(pattern[start..]).0)
    ensures pattern[it..] == SplitPad(pattern[start..]).1
  {
    it := start;
    if it == |pattern| {
      return NO_PADDING, it;
    }
    var side;
    if pattern[it] == '-' {
      side := Right;
      it := it + 1;
    } else if pattern[it] == '=' {
      side := Center;
      it := it + 1;
    } else {
      side := Left;
    }
    ghost var text := SideText(pattern[start..]);
    assert pattern[start..][|text|..] == pattern[it..] && SideOf(text) == side;
    padding, it := HandleWidth(pattern, it, side);
  }

  /** The part of the parser after the side. */
  method HandleWidth(pattern: string, start: nat, side: PadSide) returns (padding: PaddingInfo, it: nat)
    requires start <= |pattern|
    ensures start <= it <= |pattern|
    ensures var (digits, bang, rest) := SplitWidth(pattern[start..]);
            padding == (if digits == "" then NO_PADDING else PaddingInfo(Width(digits), side, bang, true)) &&
            pattern[it..] == rest
  {
    it := start;
    if it == |pattern| || !IsDigit(pattern[it]) {
      return NO_PADDING, it;
    }
    var width;
    width, it := ReadWidth(pattern, start);
    ReadAll(pattern, start, it, width);
    var truncate;
    if it < |pattern| && pattern[it] == '!' {
      truncate := true;
      it := it + 1;
    } else {
      truncate := false;
    }
    padding := PaddingInfo(if width < MAX_WIDTH then width else MAX_WIDTH, side, truncate, true);
  }

  // ---------------------------------------------------------------- patterns

  datatype Item = Text(text: string) | Spec(pad: PadText, flag: char)

  /** A pattern as a list of items; `tail` is a pad spec that the end of the pattern leaves without a flag. */
  datatype Pattern = Pattern(items: seq<Item>, tail: Option<PadText>)

  function Unparse(items: seq<Item>, tail: Option<PadText>): string {
    if items == [] then (match tail case None => "" case Some(p) => "%" + Show(p))
    else (match items[0] case Text(t) => t case Spec(p, flag) => "%" + Show(p) + [flag]) + Unparse(items[1..], tail)
  }

  /** No empty text, no two texts in a row, no '%' in a text, and every pad spec reads back. */
  predicate IsPattern(items: seq<Item>, tail: Option<PadText>) {
    if items == [] then tail.Some? ==> IsPad(tail.value, "")
    else
      (match items[0]
       case Text(t) => t != "" && '%' !in t && (|items| > 1 ==> items[1].Spec?)
       case Spec(p, flag) => IsPad(p, [flag])) &&
      IsPattern(items[1..], tail)
  }

  function TextItem(text: string): seq<Item> { if text == "" then [] else [Text(text)] }

  /** Reads a pattern after the literal characters `text`. */
  function ItemsAfter(text: string, s: string): Pattern
    decreases |s|
  {
    if s == "" then Pattern(TextItem(text), None)
    else if s[0] != '%' then ItemsAfter(text + [s[0]], s[1..])
    else
      var (pad, rest) := SplitPad(s[1..]);
      if rest == "" then Pattern(TextItem(text), Some(pad))
      else
        var more := ItemsAfter("", rest[1..]);
        Pattern(TextItem(text) + ([Spec(pad, rest[0])] + more.items), more.tail)
  }

  function ItemsOf(s: string): Pattern { ItemsAfter("", s) }

  lemma Regroup<T>(a: seq<T>, b: seq<T>, c: seq<T>)
    ensures a + (b + c) == a + b + c
  {}

  /** `p` is a pattern and is written `s`. */
  ghost predicate IsWritten(p: Pattern, s: string) {
    IsPattern(p.items, p.tail) && Unparse(p.items, p.tail) == s
  }

  lemma TextFirst(text: string, items: seq<Item>, tail: Option<PadText>, s: string)
    requires '%' !in text && IsWritten(Pattern(items, tail), s) && (items != [] ==> items[0].Spec?)
    ensures IsWritten(Pattern(TextItem(text) + items, tail), text + s)
  {
    if text == "" {
      assert TextItem(text) + items == items && text + s == s;
    } else {
      assert (TextItem(text) + items)[1..] == items;
    }
  }

  lemma TextLast(text: string, tail: Option<PadText>)
    requires '%' !in text && (tail.Some? ==> IsPad(tail.value, ""))
    ensures IsWritten(Pattern(TextItem(text), tail), text + Unparse([], tail))
  {
    TextFirst(text, [], tail, Unparse([], tail));
    assert TextItem(text) + [] == TextItem(text);
  }

  /** What is read is a pattern, and writing it down gives the source back: nothing is lost or reordered. */
  lemma {:induction false} ReadingIsLossless(text: string, s: string)
    requires '%' !in text
    ensures IsWritten(ItemsAfter(text, s), text + s)
    decreases |s|
  {
    if s == "" {
      TextLast(text, None);
    } else if s[0] != '%' {
      ReadingIsLossless(text + [s[0]], s[1..]);
      Regroup(text, [s[0]], s[1..]);
      assert [s[0]] + s[1..] == s;
    } else {
      var (pad, rest) := SplitPad(s[1..]);
      PadIsLossless(s[1..]);
      assert "%" + (Show(pad) + rest) == s;
      if rest == "" {
        TextLast(text, Some(pad));
        assert Show(pad) + "" == Show(pad);
      } else {
        ReadingIsLossless("", rest[1..]);
        SpecIsLossless(text, pad, rest);
      }
    }
  }

  lemma SpecIsLossless(text: string, pad: PadText, rest: string)
    requires '%' !in text && rest != "" && IsPad(pad, rest)
    requires IsWritten(ItemsOf(rest[1..]), "" + rest[1..])
    ensures var more := ItemsOf(rest[1..]);
            IsWritten(Pattern(TextItem(text) + ([Spec(pad, rest[0])] + more.items), more.tail),
                      text + ("%" + (Show(pad) + rest)))
  {
    var more := ItemsOf(rest[1..]);
    SpecFirst(pad, rest[0], more.items, more.tail);
    assert [rest[0]] + ("" + rest[1..]) == rest;
    TextFirst(text, [Spec(pad, rest[0])] + more.items, more.tail, "%" + (Show(pad) + rest));
  }

  lemma SpecFirst(pad: PadText, flag: char, items: seq<Item>, tail: Option<PadText>)
    requires IsPad(pad, [flag]) && IsPattern(items, tail)
    ensures var items' := [Spec(pad, flag)] + items;
            IsPattern(items', tail) &&
            Unparse(items', tail) == "%" + (Show(pad) + ([flag] + Unparse(items, tail)))
  {
    assert ([Spec(pad, flag)] + items)[1..] == items;
    assert "%" + Show(pad) + [flag] + Unparse(items, tail) == "%" + (Show(pad) + ([flag] + Unparse(items, tail)));
  }

  lemma {:induction false} ReadLiteral(text: string, t: string, rest: string)
    requires '%' !in t
    ensures ItemsAfter(text, t + rest) == ItemsAfter(text + t, rest)
    decreases |t|
  {
    if t == "" {
      assert t + rest == rest && text + t == text;
    } else {
      ReadLiteral(text + [t[0]], t[1..], rest);
      assert (t + rest)[1..] == t[1..] + rest;
      assert text + [t[0]] + t[1..] == text + t;
    }
  }

  lemma LiteralEnds(text: string, s: string)
    requires s == "" || s[0] == '%'
    ensures var p := ItemsAfter("", s); ItemsAfter(text, s) == Pattern(TextItem(text) + p.items, p.tail)
  {
    assert TextItem(text) + [] == TextItem(text);
    assert forall items: seq<Item> :: [] + items == items;
  }

  lemma ReadSpec(pad: PadText, flag: char, rest: string)
    requires IsPad(pad, [flag])
    ensures var more := ItemsOf(rest);
            ItemsOf("%" + (Show(pad) + ([flag] + rest))) == Pattern([Spec(pad, flag)] + more.items, more.tail)
  {
    var s := "%" + (Show(pad) + ([flag] + rest));
    assert s[1..] == Show(pad) + ([flag] + rest);
    PadReadsBack(pad, [flag] + rest);
    assert ([flag] + rest)[1..] == rest;
    var more := ItemsOf(rest);
    assert [] + ([Spec(pad, flag)] + more.items) == [Spec(pad, flag)] + more.items;
  }

  /** Every pattern is read as it was written, so reading and writing patterns are inverse to each other. */
  lemma {:induction false} PatternsReadBack(items: seq<Item>, tail: Option<PadText>)
    requires IsPattern(items, tail)
    ensures ItemsOf(Unparse(items, tail)) == Pattern(items, tail)
  {
    if items == [] {
      if tail.Some? {
        PadReadsBack(tail.value, "");
        assert Show(tail.value) + "" == Show(tail.value);
        assert Unparse(items, tail)[1..] == Show(tail.value);
      }
    } else {
      var rest := Unparse(items[1..], tail);
      PatternsReadBack(items[1..], tail);
      assert items == [items[0]] + items[1..];
      match items[0] {
        case Text(t) =>
          ReadLiteral("", t, rest);
          assert "" + t == t;
          LiteralEnds(t, rest);
        case Spec(pad, flag) =>
          SpecFirst(pad, flag, items[1..], tail);
          ReadSpec(pad, flag, rest);
      }
    }
  }

  // ---------------------------------------------------------------- formatters

  /** A formatter in the compiled list. The source's flags fall into those that pad their field and those
      that do not look at the padding. */
  datatype Formatter =
    | Literal(text: string)
    | Field(flag: char, padding: PaddingInfo)
    | Mdc(padding: PaddingInfo)
    | Unpadded(flag: char)
    | Custom(flag: char, padding: PaddingInfo)

  const UNPADDED_FLAGS := {'+', '^', '$'}
  const FIELD_FLAGS := {
    'n', 'l', 'L', 't', 'v', 'a', 'A', 'b', 'B', 'c', 'C', 'Y', 'D', 'm', 'd', 'H', 'I', 'M', 'S',
    'e', 'f', 'F', 'E', 'p', 'r', 'R', 'T', 'z', 'P', '@', 's', 'g', '#', '!', 'u', 'i', 'o', 'O'
  }

  /** Flags that are other names for the same formatter. */
  function Canonical(flag: char): char {
    if flag == 'h' then 'b' else if flag == 'x' then 'D' else if flag == 'X' then 'T' else flag
  }

  /** What one flag adds to the list. An unknown flag appears as it is written; after a '!' it is not the
      flag that was meant, but the '!', with the function name. */
  function Handled(flag: char, padding: PaddingInfo, custom: set<char>): seq<Formatter> {
    if flag in custom then [Custom(flag, padding)]
    else if flag in UNPADDED_FLAGS then [Unpadded(flag)]
    else if Canonical(flag) in FIELD_FLAGS then [Field(Canonical(flag), padding)]
    else if flag == '&' then [Mdc(padding)]
    else if flag == '%' then [Literal("%")]
    else if !padding.truncate then [Literal("%" + [flag])]
    else [Field('!', padding.(truncate := false)), Literal([flag])]
  }

  function MeaningOfItem(item: Item, custom: set<char>): seq<Formatter> {
    match item
    case Text(t) => [Literal(t)]
    case Spec(pad, flag) => Handled(flag, PaddingOf(pad), custom)
  }

  function Meaning(items: seq<Item>, custom: set<char>): seq<Formatter> {
    if items == [] then []
    else MeaningOfItem(items[0], custom) + Meaning(items[1..], custom)
  }

  lemma MeaningOfConcat(a: seq<Item>, b: seq<Item>, custom: set<char>)
    ensures Meaning(a + b, custom) == Meaning(a, custom) + Meaning(b, custom)
  {
    if a == [] {
      assert a + b == b;
    } else {
      assert (a + b)[1..] == a[1..] + b;
      MeaningOfConcat(a[1..], b, custom);
      Regroup(MeaningOfItem(a[0], custom), Meaning(a[1..], custom), Meaning(b, custom));
    }
  }

  predicate PadsFit(formatters: seq<Formatter>) {
    forall i :: 0 <= i < |formatters| && (formatters[i].Field? || formatters[i].Mdc?) ==>
      formatters[i].padding.width <= MAX_WIDTH
  }

  /** No pattern makes the padder ask for more than the 64 spaces it has. */
  lemma {:induction false} CompiledPadsFit(items: seq<Item>, custom: set<char>)
    ensures PadsFit(Meaning(items, custom))
  {
    if items != [] {
      CompiledPadsFit(items[1..], custom);
    }
  }

  // ---------------------------------------------------------------- fields

  function Spaces(n: nat): (r: string)
    ensures |r| == n
  {
    seq(n, i => ' ')
  }

  /** Where the padding goes; the odd space of a centred field goes to the right. */
  function LeftPart(pad: nat, side: PadSide): (n: nat)
    ensures n <= pad
  {
    match side case Left => pad case Right => 0 case Center => pad / 2
  }

  function PaddedField(text: string, padding: PaddingInfo): string {
    if !padding.enabled then text
    else if |text| >= padding.width then if padding.truncate then text[..padding.width] else text
    else
      var pad := padding.width - |text|;
      var left := LeftPart(pad, padding.side);
      Spaces(left) + text + Spaces(pad - left)
  }

  /** How `pads` spaces are divided: `left` of them before the text. */
  predicate IsDivision(side: PadSide, left: nat, pads: nat) {
    left <= pads &&
    match side
    case Left => left == pads
    case Right => left == 0
    case Center => left <= pads - left <= left + 1
  }

  predicate HasLeftPad(field: string, text: string, side: PadSide, left: nat) {
    left + |text| <= |field| && IsDivision(side, left, |field| - |text|) &&
    field == Spaces(left) + text + Spaces(|field| - |text| - left)
  }

  /** A field with a width: with '!' it is exactly that long, otherwise at least; it holds the text with the
      spaces on the side asked for, or the beginning of the text that fits. */
  lemma FieldShape(text: string, pad: PadText)
    requires pad.digits != ""
    ensures var field, w := PaddedField(text, PaddingOf(pad)), Width(pad.digits);
            |field| == (if pad.bang || |text| < w then w else |text|) &&
            (if |text| > w && pad.bang then field == text[..w]
             else exists left: nat :: HasLeftPad(field, text, SideOf(pad.side), left))
  {
    var field, w := PaddedField(text, PaddingOf(pad)), Width(pad.digits);
    if |text| < w {
      assert HasLeftPad(field, text, SideOf(pad.side), LeftPart(w - |text|, SideOf(pad.side)));
    } else if !(|text| > w && pad.bang) {
      assert HasLeftPad(field, text, SideOf(pad.side), 0);
    }
  }

  /** '-' puts the text on the left, '=' in the middle with the odd space behind it, and nothing on the right. */
  lemma WhereTheTextGoes(text: string, side: string, digits: Digits, bang: bool)
    requires digits != "" && |text| <= Width(digits) && (side == "-" || side == "=" || side == "")
    ensures var field, pads := PaddedField(text, PaddingOf(PadText(side, digits, bang))), Width(digits) - |text|;
            field == if side == "-" then text + Spaces(pads)
                     else if side == "=" then Spaces(pads / 2) + text + Spaces(pads - pads / 2)
                     else Spaces(pads) + text
  {
    var w := Width(digits);
    assert PaddingOf(PadText(side, digits, bang)) == PaddingInfo(w, SideOf(side), bang, true);
    WhereSpacesGo(text, w, SideOf(side), bang);
  }

  lemma WhereSpacesGo(text: string, w: nat, side: PadSide, bang: bool)
    requires |text| <= w
    ensures PaddedField(text, PaddingInfo(w, side, bang, true)) ==
            match side
            case Left => Spaces(w - |text|) + text
            case Right => text + Spaces(w - |text|)
            case Center => Spaces((w - |text|) / 2) + text + Spaces(w - |text| - (w - |text|) / 2)
  {
    assert text[..|text|] == text;
    assert Spaces(0) == "" && "" + text == text && text + "" == text;
    assert Spaces(w - |text|) + text + "" == Spaces(w - |text|) + text;
  }

  /** What the flags print for one message: `text` for those of the library, with the size they announce to the
      padder, `custom` for the user's, and the entries of the diagnostic context. */
  datatype Message = Message(text: char -> string, size: char -> nat, custom: (char, PaddingInfo) -> string,
                             mdc: seq<(string, string)>)

  /** One entry of the context, with a space unless it is the last. */
  function Entry(mdc: seq<(string, string)>, i: nat): string
    requires i < |mdc|
  {
    mdc[i].0 + ":" + mdc[i].1 + if i < |mdc| - 1 then " " else ""
  }

  /** The first `n` entries, each a field of its own. */
  function Entries(mdc: seq<(string, string)>, n: nat, padding: PaddingInfo): string
    requires n <= |mdc|
  {
    if n == 0 then "" else Entries(mdc, n - 1, padding) + PaddedField(Entry(mdc, n - 1), padding)
  }

  function PrintedMdc(mdc: seq<(string, string)>, padding: PaddingInfo): string {
    if mdc == [] then PaddedField("", padding) else Entries(mdc, |mdc|, padding)
  }

  /** The context as one text. */
  function Joined(mdc: seq<(string, string)>): string {
    if mdc == [] then ""
    else if |mdc| == 1 then mdc[0].0 + ":" + mdc[0].1
    else Joined(mdc[..|mdc| - 1]) + " " + mdc[|mdc| - 1].0 + ":" + mdc[|mdc| - 1].1
  }

  function Printed(f: Formatter, msg: Message): string {
    match f
    case Literal(text) => text
    case Field(flag, padding) => PaddedField(msg.text(flag), padding)
    case Mdc(padding) => PrintedMdc(msg.mdc, padding)
    case Unpadded(flag) => msg.text(flag)
    case Custom(flag, padding) => msg.custom(flag, padding)
  }

  function Output(formatters: seq<Formatter>, msg: Message): string {
    if formatters == [] then ""
    else Output(formatters[..|formatters| - 1], msg) + Printed(formatters[|formatters| - 1], msg)
  }

  lemma {:induction false} OutputOfConcat(a: seq<Formatter>, b: seq<Formatter>, msg: Message)
    ensures Output(a + b, msg) == Output(a, msg) + Output(b, msg)
  {
    if b == [] {
      assert a + b == a;
    } else {
      var rest, last := b[..|b| - 1], b[|b| - 1];
      OutputOfConcat(a, rest, msg);
      assert (a + b)[..|a + b| - 1] == a + rest;
      Regroup(Output(a, msg), Output(rest, msg), Printed(last, msg));
    }
  }

  /** Any text can be put in a pattern by doubling its percent signs. */
  function Escaped(s: string): string {
    if s == "" then "" else (if s[0] == '%' then "%%" else [s[0]]) + Escaped(s[1..])
  }

  function OutputOf(items: seq<Item>, custom: set<char>, msg: Message): string {
    Output(Meaning(items, custom), msg)
  }

  lemma OutputOfItems(a: seq<Item>, b: seq<Item>, custom: set<char>, msg: Message)
    ensures OutputOf(a + b, custom, msg) == OutputOf(a, custom, msg) + OutputOf(b, custom, msg)
  {
    MeaningOfConcat(a, b, custom);
    OutputOfConcat(Meaning(a, custom), Meaning(b, custom), msg);
  }

  predicate IsUnknown(flag: char, custom: set<char>) {
    flag !in custom && flag !in UNPADDED_FLAGS && Canonical(flag) !in FIELD_FLAGS && flag != '%' && flag != '&'
  }

  /** An unknown flag is printed with its percent sign and without its pad spec, so as it was written exactly if
      it has none. After a '!' it is the '!' that counts as the flag, for the function name, with the width that
      was given, and the unknown flag is printed behind it. */
  lemma UnknownFlagIsPrinted(pad: PadText, flag: char, custom: set<char>, msg: Message)
    requires IsUnknown(flag, custom) && (pad.bang ==> pad.digits != "")
    ensures var printed := OutputOf([Spec(pad, flag)], custom, msg);
            if pad.bang then printed == PaddedField(msg.text('!'), PaddingOf(pad.(bang := false))) + [flag]
            else printed == "%" + [flag] && (printed == Unparse([Spec(pad, flag)], None) <==> Show(pad) == "")
  {
    var item := Spec(pad, flag);
    MeaningOfOne(item, custom);
    if pad.bang {
      var name, rest := Field('!', PaddingOf(pad.(bang := false))), Literal([flag]);
      assert Meaning([item], custom) == [name] + [rest];
      OutputOfConcat([name], [rest], msg);
      OneIsPrinted(name, msg);
      OneIsPrinted(rest, msg);
    } else {
      OneIsPrinted(Literal("%" + [flag]), msg);
      assert Unparse([item], None) == "%" + Show(pad) + [flag] by {
        assert [item][1..] == [];
      }
      assert |"%" + Show(pad) + [flag]| == 2 + |Show(pad)|;
    }
  }

  /** The case labels of the flags that print one field of text. */
  predicate PrintsOneField(flag: char) {
    flag in {'n', 'l', 'L', 't', 'v', 'a', 'A', 'b', 'h', 'B', 'c', 'C', 'Y', 'D',
             'x', 'm', 'd', 'H', 'I', 'M', 'S', 'e', 'f', 'F', 'E', 'p', 'r', 'R',
             'T', 'X', 'z', 'P', '@', 's', 'g', '#', '!', 'u', 'i', 'o', 'O'}
  }

  /** The flags that print one field, with those that are other names of another flag. */
  lemma FieldFlagIsPrinted(pad: PadText, flag: char, msg: Message)
    requires PrintsOneField(flag)
    ensures var name := if flag == 'h' then 'b' else if flag == 'x' then 'D' else if flag == 'X' then 'T' else flag;
            OutputOf([Spec(pad, flag)], {}, msg) == PaddedField(msg.text(name), PaddingOf(pad))
  {
    FieldFlagMeans(flag, PaddingOf(pad));
    MeaningOfOne(Spec(pad, flag), {});
    OneIsPrinted(Handled(flag, PaddingOf(pad), {})[0], msg);
  }

  lemma FieldFlagMeans(flag: char, padding: PaddingInfo)
    requires PrintsOneField(flag)
    ensures var name := if flag == 'h' then 'b' else if flag == 'x' then 'D' else if flag == 'X' then 'T' else flag;
            Handled(flag, padding, {}) == [Field(name, padding)]
  {
    FieldFlagsAreKnown(flag);
  }

  lemma FieldFlagsAreKnown(flag: char)
    requires PrintsOneField(flag)
    ensures Canonical(flag) in FIELD_FLAGS && flag !in UNPADDED_FLAGS
  {}

  /** The flags that do not print a field of their own: the whole line, the two ends of the colour, a percent sign
      and the diagnostic context. */
  lemma OtherFlagIsPrinted(pad: PadText, flag: char, msg: Message)
    requires flag in {'+', '^', '$', '%', '&'}
    ensures OutputOf([Spec(pad, flag)], {}, msg) ==
            if flag == '%' then "%" else if flag == '&' then PrintedMdc(msg.mdc, PaddingOf(pad)) else msg.text(flag)
  {
    OtherFlagMeans(flag, PaddingOf(pad));
    MeaningOfOne(Spec(pad, flag), {});
    OneIsPrinted(Handled(flag, PaddingOf(pad), {})[0], msg);
  }

  lemma OtherFlagMeans(flag: char, padding: PaddingInfo)
    requires flag in {'+', '^', '$', '%', '&'}
    ensures Handled(flag, padding, {}) ==
            if flag == '%' then [Literal("%")] else if flag == '&' then [Mdc(padding)] else [Unpadded(flag)]
  {}

  /** A flag of the user is printed by the user's formatter, also where the library has one of that name. */
  lemma CustomFlagIsPrinted(pad: PadText, flag: char, custom: set<char>, msg: Message)
    requires flag in custom
    ensures OutputOf([Spec(pad, flag)], custom, msg) == msg.custom(flag, PaddingOf(pad))
  {
    MeaningOfOne(Spec(pad, flag), custom);
    OneIsPrinted(Custom(flag, PaddingOf(pad)), msg);
  }

  /** All other flags are unknown, and none of these. */
  lemma UnknownFlags(flag: char)
    ensures IsUnknown(flag, {}) <==> !PrintsOneField(flag) && flag !in {'+', '^', '$', '%', '&'}
  {}

  /** A pattern that is one flag and a pad spec, or no pad spec. */
  lemma PatternOfOneFlag(pad: PadText, flag: char, custom: set<char>, msg: Message)
    requires IsPad(pad, [flag])
    ensures OutputOf(ItemsOf("%" + Show(pad) + [flag]).items, custom, msg) == OutputOf([Spec(pad, flag)], custom, msg)
  {
    var items := [Spec(pad, flag)];
    assert items[1..] == [];
    PatternsReadBack(items, None);
    assert Unparse(items, None) == "%" + Show(pad) + [flag] + "" == "%" + Show(pad) + [flag];
  }

  /** So '%' and a flag of the library print the text of that flag. */
  lemma BareFlagIsPrinted(flag: char, msg: Message)
    requires PrintsOneField(flag)
    ensures var name := if flag == 'h' then 'b' else if flag == 'x' then 'D' else if flag == 'X' then 'T' else flag;
            OutputOf(ItemsOf(['%', flag]).items, {}, msg) == msg.text(name)
  {
    var pad := PadText("", "", false);
    assert Show(pad) == "" && "%" + "" + [flag] == ['%', flag];
    PatternOfOneFlag(pad, flag, {}, msg);
    FieldFlagIsPrinted(pad, flag, msg);
  }

  /** A pad spec without a flag at the end of a pattern prints nothing. */
  lemma UnfinishedSpecIsDropped(items: seq<Item>, tail: Option<PadText>, custom: set<char>, msg: Message)
    requires IsPattern(items, tail)
    ensures OutputOf(ItemsOf(Unparse(items, tail)).items, custom, msg) == OutputOf(items, custom, msg)
  {
    PatternsReadBack(items, tail);
  }

  lemma MeaningOfOne(item: Item, custom: set<char>)
    ensures Meaning([item], custom) == MeaningOfItem(item, custom)
  {
    assert [item][1..] == [];
    assert MeaningOfItem(item, custom) + [] == MeaningOfItem(item, custom);
  }

  lemma OneIsPrinted(f: Formatter, msg: Message)
    ensures Output([f], msg) == Printed(f, msg)
  {
    assert [f][..0] == [];
    assert "" + Printed(f, msg) == Printed(f, msg);
  }

  /** It is printed unchanged, unless the user has taken the flag '%'. */
  lemma {:induction false} EscapedTextIsPrinted(before: string, s: string, custom: set<char>, msg: Message)
    requires '%' !in custom
    ensures OutputOf(ItemsAfter(before, Escaped(s)).items, custom, msg) == before + s
    decreases |s|
  {
    if s == "" {
      assert before + s == before;
      TextIsPrinted(before, custom, msg);
    } else {
      assert [s[0]] + s[1..] == s;
      var rest := Escaped(s[1..]);
      if s[0] != '%' {
        EscapedTextIsPrinted(before + [s[0]], s[1..], custom, msg);
        assert ([s[0]] + rest)[1..] == rest;
        Regroup(before, [s[0]], s[1..]);
      } else {
        EscapedTextIsPrinted("", s[1..], custom, msg);
        assert "" + s[1..] == s[1..];
        PercentIsPrinted(rest, custom, msg);
        TextBefore(before, "%%" + rest, custom, msg);
      }
    }
  }

  lemma TextIsPrinted(text: string, custom: set<char>, msg: Message)
    ensures OutputOf(TextItem(text), custom, msg) == text
  {
    if text != "" {
      assert Meaning(TextItem(text), custom) == [Literal(text)];
      OneIsPrinted(Literal(text), msg);
    }
  }

  lemma TextBefore(before: string, s: string, custom: set<char>, msg: Message)
    requires s == "" || s[0] == '%'
    ensures OutputOf(ItemsAfter(before, s).items, custom, msg) == before + OutputOf(ItemsOf(s).items, custom, msg)
  {
    LiteralEnds(before, s);
    OutputOfItems(TextItem(before), ItemsOf(s).items, custom, msg);
    TextIsPrinted(before, custom, msg);
  }

  const PERCENT := Spec(PadText("", "", false), '%')

  lemma PercentIsRead(rest: string)
    ensures ItemsOf("%%" + rest).items == [PERCENT] + ItemsOf(rest).items
  {
    assert "%" + (Show(PERCENT.pad) + (['%'] + rest)) == "%%" + rest;
    ReadSpec(PERCENT.pad, '%', rest);
  }

  lemma PercentMeans(custom: set<char>)
    requires '%' !in custom
    ensures Meaning([PERCENT], custom) == [Literal("%")]
  {
    assert Handled('%', NO_PADDING, custom) == [Literal("%")];
  }

  lemma PercentIsPrinted(rest: string, custom: set<char>, msg: Message)
    requires '%' !in custom
    ensures OutputOf(ItemsOf("%%" + rest).items, custom, msg) == "%" + OutputOf(ItemsOf(rest).items, custom, msg)
  {
    PercentIsRead(rest);
    PercentMeans(custom);
    OneIsPrinted(Literal("%"), msg);
    OutputOfItems([PERCENT], ItemsOf(rest).items, custom, msg);
  }

  // ---------------------------------------------------------------- the objects

  class MemoryBuf {
    var data: string

    constructor ()
      ensures data == ""
    {
      data := "";
    }
  }

  /** What the padder still has to add, or to take away, when its scope ends. */
  function RemainingPad(wrappedSize: nat, padding: PaddingInfo): int {
    var pad := padding.width - wrappedSize;
    if pad <= 0 then pad else pad - LeftPart(pad, padding.side)
  }

  function LeftSpaces(wrappedSize: nat, padding: PaddingInfo): string {
    if padding.width <= wrappedSize then "" else Spaces(LeftPart(padding.width - wrappedSize, padding.side))
  }

  /** What becomes of the buffer when the padder is done; None when its size would be negative. */
  function Closed(written: string, remainingPad: int, padding: PaddingInfo): Option<string> {
    if remainingPad >= 0 then Some(written + Spaces(remainingPad))
    else if !padding.truncate then Some(written)
    else if |written| + remainingPad < 0 then None
    else Some(written[..|written| + remainingPad])
  }

  /** One field behind what is in the buffer, when the flag announces `size` characters. */
  function FieldInto(before: string, text: string, size: nat, padding: PaddingInfo): Option<string> {
    if !padding.enabled then Some(before + text)
    else Closed(before + LeftSpaces(size, padding) + text, RemainingPad(size, padding), padding)
  }

  /** Pads on the left when it is made and on the right, or truncates, when it goes out of scope. */
  class ScopedPadder {
    const padinfo: PaddingInfo
    const dest: MemoryBuf
    var remainingPad: int

    constructor (wrappedSize: nat, padinfo: PaddingInfo, dest: MemoryBuf)
      requires padinfo.width <= MAX_WIDTH
      modifies dest
      ensures this.padinfo == padinfo && this.dest == dest
      ensures remainingPad == RemainingPad(wrappedSize, padinfo)
      ensures dest.data == old(dest.data) + LeftSpaces(wrappedSize, padinfo)
    {
      this.padinfo, this.dest, remainingPad := padinfo, dest, padinfo.width - wrappedSize;
      new;
      if remainingPad <= 0 {
        return;
      }
      if padinfo.side == Left {
        PadIt(remainingPad);
        remainingPad := 0;
      } else if padinfo.side == Center {
        var halfPad := remainingPad / 2;
        var reminder := remainingPad % 2;
        PadIt(halfPad);
        remainingPad := halfPad + reminder;
      }
    }

    /** Appends spaces; there are 64 of them to take from. */
    method PadIt(count: nat)
      requires count <= MAX_WIDTH
      modifies dest
      ensures dest.data == old(dest.data) + Spaces(count)
    {
      dest.data := dest.data + Spaces(count);
    }

    /** The destructor; not ok when it tries to resize the buffer to a negative size. */
    method Close() returns (ok: bool)
      requires remainingPad <= MAX_WIDTH
      modifies dest
      ensures match Closed(old(dest.data), remainingPad, padinfo)
              case None => !ok
              case Some(data) => ok && dest.data == data
    {
      ok := true;
      if remainingPad >= 0 {
        PadIt(remainingPad);
      } else if padinfo.truncate {
        var newSize := |dest.data| + remainingPad;
        if newSize < 0 {
          return false;
        }
        dest.data := dest.data[..newSize];
      }
    }
  }

  lemma PadderMakesTheField(before: string, text: string, padding: PaddingInfo)
    ensures FieldInto(before, text, |text|, padding) == Some(before + PaddedField(text, padding))
  {
    var r, written := RemainingPad(|text|, padding), before + LeftSpaces(|text|, padding) + text;
    if padding.enabled {
      if |text| < padding.width {
        var left := LeftPart(padding.width - |text|, padding.side);
        Regroup(before, Spaces(left) + text, Spaces(r));
        Regroup(before, Spaces(left), text);
      } else {
        assert written == before + text && written + Spaces(0) == written;
        if padding.truncate {
          assert written[..|before| + padding.width] == before + text[..padding.width];
        }
        assert text[..|text|] == text;
      }
    }
  }

  /** The announced size is the text's, or it does not matter because there is nothing to pad or to cut. */
  predicate AnnouncesRight(text: string, size: nat, padding: PaddingInfo) {
    !padding.enabled || size == |text| || (!padding.truncate && size >= padding.width && |text| >= padding.width)
  }

  /** A field comes out as it should if and only if its size is announced right. */
  lemma WhenTheFieldIsRight(before: string, text: string, size: nat, padding: PaddingInfo)
    ensures FieldInto(before, text, size, padding) == Some(before + PaddedField(text, padding))
            <==> AnnouncesRight(text, size, padding)
  {
    if padding.enabled {
      if size == |text| {
        PadderMakesTheField(before, text, padding);
      } else if AnnouncesRight(text, size, padding) {
        PadderMakesTheField(before, text, padding);
        assert before + LeftSpaces(size, padding) + text == before + text;
        assert before + text + Spaces(0) == before + text;
      } else {
        FieldLengths(before, text, size, padding);
      }
    }
  }

  lemma FieldLengths(before: string, text: string, size: nat, padding: PaddingInfo)
    requires padding.enabled
    ensures var w, field := padding.width, FieldInto(before, text, size, padding);
            field.Some? ==>
              |field.value| == |before| + |text| + if size < w || padding.truncate then w - size else 0
    ensures |PaddedField(text, padding)| ==
            if |text| < padding.width || padding.truncate then padding.width else |text|
  {}

  /** What one formatter makes of the buffer, with the sizes that the flags announce. */
  function PrintInto(before: string, f: Formatter, msg: Message): Option<string> {
    if f.Field? then FieldInto(before, msg.text(f.flag), msg.size(f.flag), f.padding)
    else Some(before + Printed(f, msg))
  }

  function OutputInto(before: string, formatters: seq<Formatter>, msg: Message): Option<string> {
    if formatters == [] then Some(before)
    else match OutputInto(before, formatters[..|formatters| - 1], msg)
      case None => None
      case Some(data) => PrintInto(data, formatters[|formatters| - 1], msg)
  }

  predicate AllAnnounceRight(formatters: seq<Formatter>, msg: Message) {
    forall i :: 0 <= i < |formatters| && formatters[i].Field? ==>
      AnnouncesRight(msg.text(formatters[i].flag), msg.size(formatters[i].flag), formatters[i].padding)
  }

  lemma {:induction false} HonestOutput(before: string, formatters: seq<Formatter>, msg: Message)
    ensures AllAnnounceRight(formatters, msg) ==>
              OutputInto(before, formatters, msg) == Some(before + Output(formatters, msg))
  {
    if formatters == [] {
      assert before + "" == before;
    } else if AllAnnounceRight(formatters, msg) {
      var rest, last := formatters[..|formatters| - 1], formatters[|formatters| - 1];
      HonestOutput(before, rest, msg);
      if last.Field? {
        WhenTheFieldIsRight(before + Output(rest, msg), msg.text(last.flag), msg.size(last.flag), last.padding);
      }
      Regroup(before, Output(rest, msg), Printed(last, msg));
    }
  }

  lemma {:induction false} FailsEarly(before: string, formatters: seq<Formatter>, i: nat, msg: Message)
    requires i <= |formatters| && OutputInto(before, formatters[..i], msg).None?
    ensures OutputInto(before, formatters, msg).None?
    decreases |formatters|
  {
    if i == |formatters| {
      assert formatters[..i] == formatters;
    } else {
      var rest := formatters[..|formatters| - 1];
      assert rest[..i] == formatters[..i];
      FailsEarly(before, rest, i, msg);
    }
  }

  /** Without padding the context is printed as one text. */
  lemma {:induction false} UnpaddedMdcIsJoined(mdc: seq<(string, string)>)
    ensures PrintedMdc(mdc, NO_PADDING) == Joined(mdc)
  {
    if mdc != [] {
      EntriesAreJoined(mdc, |mdc|);
      assert mdc[..|mdc|] == mdc;
    }
  }

  lemma {:induction false} EntriesAreJoined(mdc: seq<(string, string)>, n: nat)
    requires 0 < n <= |mdc|
    ensures Entries(mdc, n, NO_PADDING) == Joined(mdc[..n]) + if n < |mdc| then " " else ""
  {
    var last := mdc[n - 1].0 + ":" + mdc[n - 1].1;
    var gap := if n < |mdc| then " " else "";
    if n == 1 {
      assert Entries(mdc, 0, NO_PADDING) + (last + gap) == last + gap;
    } else {
      EntriesAreJoined(mdc, n - 1);
      assert mdc[..n][..n - 1] == mdc[..n - 1];
      assert Joined(mdc[..n - 1]) + " " + (last + gap)
          == Joined(mdc[..n - 1]) + " " + mdc[n - 1].0 + ":" + mdc[n - 1].1 + gap;
    }
  }

  /** A context of at most one entry is one field. */
  lemma ShortMdcIsOneField(mdc: seq<(string, string)>, padding: PaddingInfo)
    requires |mdc| <= 1
    ensures PrintedMdc(mdc, padding) == PaddedField(Joined(mdc), padding)
  {
    if |mdc| == 1 {
      assert Entry(mdc, 0) == Joined(mdc);
      assert Entries(mdc, 0, padding) + PaddedField(Entry(mdc, 0), padding) == PaddedField(Entry(mdc, 0), padding);
    }
  }

  /** With padding it is one field only if it has at most one entry; more entries are padded one by one, so with a
      width and no '!' the whole is at least as long as that many fields. */
  lemma {:induction false} EntriesArePadded(mdc: seq<(string, string)>, n: nat, padding: PaddingInfo)
    requires n <= |mdc| && padding.enabled
    ensures |Entries(mdc, n, padding)| >= n * padding.width
    ensures padding.truncate ==> |Entries(mdc, n, padding)| == n * padding.width
  {
    if n > 0 {
      EntriesArePadded(mdc, n - 1, padding);
      assert n * padding.width == (n - 1) * padding.width + padding.width;
    }
  }

  function LiteralOf(text: string): seq<Formatter> { if text == "" then [] else [Literal(text)] }

  lemma MeaningOfText(text: string, custom: set<char>)
    ensures Meaning(TextItem(text), custom) == LiteralOf(text)
  {}

  /** What is still to be compiled: the literal characters so far and the rest of the pattern. */
  function ToGo(text: string, s: string, custom: set<char>): seq<Formatter> {
    Meaning(ItemsAfter(text, s).items, custom)
  }

  /** The list so far, the literal characters so far and the pattern from `it` on make up the whole list. */
  ghost predicate IsLeft(done: seq<Formatter>, text: string, pattern: string, it: nat, custom: set<char>,
                         whole: seq<Formatter>)
  {
    it <= |pattern| && done + ToGo(text, pattern[it..], custom) == whole
  }

  lemma AtStart(pattern: string, custom: set<char>)
    ensures IsLeft([], "", pattern, 0, custom, Meaning(ItemsOf(pattern).items, custom))
  {
    assert pattern[0..] == pattern;
  }

  lemma PastChar(done: seq<Formatter>, text: string, pattern: string, it: nat, custom: set<char>, whole: seq<Formatter>)
    requires it < |pattern| && pattern[it] != '%' && IsLeft(done, text, pattern, it, custom, whole)
    ensures IsLeft(done, text + [pattern[it]], pattern, it + 1, custom, whole)
  {
    assert pattern[it..][1..] == pattern[it + 1..];
  }

  lemma AtEnd(done: seq<Formatter>, text: string, pattern: string, it: nat, custom: set<char>, whole: seq<Formatter>)
    requires it == |pattern| && IsLeft(done, text, pattern, it, custom, whole)
    ensures done + LiteralOf(text) == whole
  {
    assert pattern[it..] == "";
    MeaningOfText(text, custom);
  }

  /** The same, from a '%' on. */
  lemma MeaningOfSpec(text: string, s: string, custom: set<char>)
    requires s != "" && s[0] == '%'
    ensures var (pad, rest) := SplitPad(s[1..]);
            ToGo(text, s, custom) ==
            LiteralOf(text)
            + (if rest == "" then [] else Handled(rest[0], PaddingOf(pad), custom) + ToGo("", rest[1..], custom))
  {
    var (pad, rest) := SplitPad(s[1..]);
    MeaningOfText(text, custom);
    if rest == "" {
      assert LiteralOf(text) + [] == LiteralOf(text);
    } else {
      var more := ItemsOf(rest[1..]).items;
      MeaningOfConcat(TextItem(text), [Spec(pad, rest[0])] + more, custom);
      assert ([Spec(pad, rest[0])] + more)[1..] == more;
    }
  }

  class PatternCompiler {
    const customFlags: set<char>
    const eol: string
    var formatters: seq<Formatter>

    ghost predicate Valid()
      reads this
    {
      PadsFit(formatters)
    }

    constructor (pattern: string, eol: string, customFlags: set<char>)
      ensures this.eol == eol && this.customFlags == customFlags
      ensures Valid() && formatters == Meaning(ItemsOf(pattern).items, customFlags)
    {
      this.eol, this.customFlags, formatters := eol, customFlags, [];
      new;
      CompilePattern(pattern);
    }

    method HandleFlag(flag: char, padding: PaddingInfo)
      modifies this
      ensures formatters == old(formatters) + Handled(flag, padding, customFlags)
    {
      if flag in customFlags {
        formatters := formatters + [Custom(flag, padding)];
        return;
      }
      var name := Canonical(flag);
      if name in UNPADDED_FLAGS {
        formatters := formatters + [Unpadded(name)];
      } else if name in FIELD_FLAGS {
        formatters := formatters + [Field(name, padding)];
      } else if name == '&' {
        formatters := formatters + [Mdc(padding)];
      } else if name == '%' {
        formatters := formatters + [Literal("%")];
      } else {
        var unknownFlag := "";
        if !padding.truncate {
          unknownFlag := unknownFlag + "%";
          unknownFlag := unknownFlag + [flag];
          assert unknownFlag == "%" + [flag];
          formatters := formatters + [Literal(unknownFlag)];
        } else {
          formatters := formatters + [Field('!', padding.(truncate := false))];
          unknownFlag := unknownFlag + [flag];
          assert unknownFlag == [flag];
          formatters := formatters + [Literal(unknownFlag)];
        }
      }
    }

    method CompilePattern(pattern: string)
      modifies this
      ensures Valid() && formatters == Meaning(ItemsOf(pattern).items, customFlags)
    {
      formatters := [];
      AtStart(pattern, customFlags);
      CompileLoop(pattern, Meaning(ItemsOf(pattern).items, customFlags));
      CompiledPadsFit(ItemsOf(pattern).items, customFlags);
    }

    method CompileLoop(pattern: string, ghost whole: seq<Formatter>)
      requires IsLeft(formatters, "", pattern, 0, customFlags, whole)
      modifies this
      ensures formatters == whole
    {
      var userChars, it := "", 0;
      while it < |pattern|
        invariant IsLeft(formatters, userChars, pattern, it, customFlags, whole)
      {
        var ended;
        it, userChars, ended := CompileOne(pattern, it, userChars, whole);
        if ended {
          return;
        }
      }
      AtEnd(formatters, userChars, pattern, it, customFlags, whole);
      FlushUserChars(userChars);
    }

    /** One round of the loop, with the step to the next character; `ended` when the pattern ends in a pad spec. */
    method CompileOne(pattern: string, it: nat, chars: string, ghost whole: seq<Formatter>)
      returns (next: nat, userChars: string, ended: bool)
      requires it < |pattern| && IsLeft(formatters, chars, pattern, it, customFlags, whole)
      modifies this
      ensures it < next <= |pattern|
      ensures if ended then formatters == whole else IsLeft(formatters, userChars, pattern, next, customFlags, whole)
    {
      if pattern[it] == '%' {
        next := CompileSpec(pattern, it, chars, whole);
        userChars, ended := "", next == |pattern|;
        next := if ended then next else next + 1;
      } else {
        userChars := AddChar(pattern, it, chars, whole);
        next, ended := it + 1, false;
      }
    }

    method AddChar(pattern: string, it: nat, chars: string, ghost whole: seq<Formatter>) returns (userChars: string)
      requires it < |pattern| && pattern[it] != '%' && IsLeft(formatters, chars, pattern, it, customFlags, whole)
      ensures IsLeft(formatters, userChars, pattern, it + 1, customFlags, whole)
    {
      PastChar(formatters, chars, pattern, it, customFlags, whole);
      userChars := chars + [pattern[it]];
    }

    /** Moves the literal characters found so far, if any, to the list. */
    method FlushUserChars(userChars: string)
      modifies this
      ensures formatters == old(formatters) + LiteralOf(userChars)
    {
      if userChars != "" {
        formatters := formatters + [Literal(userChars)];
      }
    }

    /** The branch for a '%' at `start`: ends at the flag, or at the end of the pattern. */
    method CompileSpec(pattern: string, start: nat, userChars: string, ghost whole: seq<Formatter>) returns (it: nat)
      requires start < |pattern| && pattern[start] == '%'
      requires IsLeft(formatters, userChars, pattern, start, customFlags, whole)
      modifies this
      ensures start < it <= |pattern|
      ensures if it == |pattern| then formatters == whole
              else IsLeft(formatters, "", pattern, it + 1, customFlags, whole)
    {
      MeaningOfSpec(userChars, pattern[start..], customFlags);
      assert pattern[start..][1..] == pattern[start + 1..];
      ghost var before := formatters;
      FlushUserChars(userChars);
      var padding;
      padding, it := HandlePadspec(pattern, start + 1);
      if it < |pattern| {
        HandleFlag(pattern[it], padding);
        ghost var handled := Handled(pattern[it], padding, customFlags);
        assert pattern[it..][1..] == pattern[it + 1..];
        Regroup(before, LiteralOf(userChars), handled);
        Regroup(before, LiteralOf(userChars) + handled, ToGo("", pattern[it + 1..], customFlags));
        Regroup(LiteralOf(userChars), handled, ToGo("", pattern[it + 1..], customFlags));
      }
    }

    /** One field: a padder around the text, or the text alone. */
    method PrintField(text: string, size: nat, padding: PaddingInfo, dest: MemoryBuf) returns (ok: bool)
      requires padding.width <= MAX_WIDTH
      modifies dest
      ensures match FieldInto(old(dest.data), text, size, padding)
              case None => !ok
              case Some(data) => ok && dest.data == data
    {
      if padding.enabled {
        var padder := new ScopedPadder(size, padding, dest);
        dest.data := dest.data + text;
        ok := padder.Close();
      } else {
        dest.data := dest.data + text;
        ok := true;
      }
    }

    /** `format_mdc`: every entry has a padder of its own. */
    method FormatMdc(mdc: seq<(string, string)>, padding: PaddingInfo, dest: MemoryBuf)
      requires mdc != [] && padding.width <= MAX_WIDTH
      modifies dest
      ensures dest.data == old(dest.data) + Entries(mdc, |mdc|, padding)
    {
      var i := 0;
      assert old(dest.data) + Entries(mdc, 0, padding) == old(dest.data);
      while i < |mdc|
        invariant i <= |mdc| && dest.data == old(dest.data) + Entries(mdc, i, padding)
      {
        var contentSize := |mdc[i].0| + |mdc[i].1| + 1;
        var content := mdc[i].0 + ":" + mdc[i].1;
        if i != |mdc| - 1 {
          contentSize := contentSize + 1;
          content := content + " ";
        }
        assert content == Entry(mdc, i) && contentSize == |content|;
        PadderMakesTheField(dest.data, content, padding);
        Regroup(old(dest.data), Entries(mdc, i, padding), PaddedField(content, padding));
        var ok := PrintField(content, contentSize, padding, dest);
        i := i + 1;
      }
    }

    method Print(f: Formatter, msg: Message, dest: MemoryBuf) returns (ok: bool)
      requires f.Field? || f.Mdc? ==> f.padding.width <= MAX_WIDTH
      modifies dest
      ensures match PrintInto(old(dest.data), f, msg)
              case None => !ok
              case Some(data) => ok && dest.data == data
    {
      ok := true;
      match f
      case Literal(text) => dest.data := dest.data + text;
      case Field(flag, padding) => ok := PrintField(msg.text(flag), msg.size(flag), padding, dest);
      case Mdc(padding) =>
        if msg.mdc == [] {
          PadderMakesTheField(dest.data, "", padding);
          ok := PrintField("", 0, padding, dest);
        } else {
          FormatMdc(msg.mdc, padding, dest);
        }
      case Unpadded(flag) => dest.data := dest.data + msg.text(flag);
      case Custom(flag, padding) => dest.data := dest.data + msg.custom(flag, padding);
    }

    /** The whole line for a message; not ok when a padder throws. */
    method Format(msg: Message, dest: MemoryBuf) returns (ok: bool)
      requires Valid()
      modifies dest
      ensures match OutputInto(old(dest.data), formatters, msg)
              case None => !ok
              case Some(data) => ok && dest.data == data + eol
      ensures AllAnnounceRight(formatters, msg) ==> ok && dest.data == old(dest.data) + Output(formatters, msg) + eol
    {
      var i := 0;
      HonestOutput(dest.data, formatters, msg);
      while i < |formatters|
        invariant i <= |formatters| && formatters == old(formatters)
        invariant OutputInto(old(dest.data), formatters[..i], msg) == Some(dest.data)
      {
        assert formatters[..i + 1][..i] == formatters[..i];
        ok := Print(formatters[i], msg, dest);
        if !ok {
          FailsEarly(old(dest.data), formatters, i + 1, msg);
          return;
        }
        i := i + 1;
      }
      assert formatters[..i] == formatters;
      dest.data := dest.data + eol;
      ok := true;
    }
  }
}
