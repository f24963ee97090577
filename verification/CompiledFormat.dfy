/**
 The format-string compiler: a string is compiled once to a tree of text pieces and replacement fields,
 and the tree is formatted with the arguments. The reference is the runtime formatter, the parser of
 FormatString with the library's `format_handler`. How an argument and its specifiers are formatted
 stays abstract.
 */
module CompiledFormat {
  import opened Wrappers
  import opened FormatString

  /** The argument index that stands for manual indexing, in the compiler and in the parse context. */
  const MANUAL := -1

  /** Formatting of arguments of type A with types T and parsed specifiers S. `parseSpecs` starts behind
      the colon with the next automatic argument id, and returns where it stopped and the next id then;
      `withSpecs` may look up further arguments for a dynamic width or precision. */
  datatype Formatting<!A, !T, !S> = Formatting(
    typeOf: A -> T,
    default: A -> string,
    parseSpecs: (T, string, nat, int) -> Option<(S, nat, int)>,
    withSpecs: (S, seq<A>, nat) -> Option<string>)

  /** What the specifier parsers of the library do with positions and argument ids: they stop inside the
      string, automatic ids only go up, and once indexing is manual it stays manual and no automatic id is
      drawn, so that starting undecided would have made no difference. */
  ghost predicate Lawful<A(!new), T(!new), S(!new)>(fm: Formatting<A, T, S>) {
    && (forall t: T, fmt: string, pos: nat, id: int :: pos <= |fmt| && fm.parseSpecs(t, fmt, pos, id).Some? ==>
          pos <= fm.parseSpecs(t, fmt, pos, id).value.1 <= |fmt|)
    && (forall t: T, fmt: string, pos: nat, id: int :: id > 0 && fm.parseSpecs(t, fmt, pos, id).Some? ==>
          fm.parseSpecs(t, fmt, pos, id).value.2 > 0)
    && (forall t: T, fmt: string, pos: nat :: fm.parseSpecs(t, fmt, pos, MANUAL).Some? ==>
          && fm.parseSpecs(t, fmt, pos, MANUAL).value.2 == MANUAL
          && fm.parseSpecs(t, fmt, pos, 0).Some?
          && fm.parseSpecs(t, fmt, pos, 0).value.0 == fm.parseSpecs(t, fmt, pos, MANUAL).value.0
          && fm.parseSpecs(t, fmt, pos, 0).value.1 == fm.parseSpecs(t, fmt, pos, MANUAL).value.1)
  }

  /** A dynamic width or precision: absent, a number, or the argument that supplies it. */
  datatype Dynamic = Absent | Number(n: int) | FromArg(id: int) | FromName(name: string)

  /** `parse_dynamic_spec`, the part of the specifier parser that takes arguments; `id` is the next
      automatic argument id or MANUAL. */
  function ParseDynamicSpec(fmt: string, pos: nat, id: int): Option<(Dynamic, nat, int)>
    requires pos <= |fmt|
  {
    if pos == |fmt| then Some((Absent, pos, id))
    else if IsDigit(fmt[pos]) then
      var end := DigitsEnd(fmt, pos);
      var n := Nonnegative(fmt[pos..end], -1);
      if n == -1 then None else Some((Number(n), end, id))
    else if fmt[pos] == '{' then
      if pos + 1 == |fmt| then None
      else
        var (argId, end) := ParseArgId(fmt, pos + 1);
        if end == |fmt| || fmt[end] != '}' then None
        else match argId
          case Auto => if id < 0 then None else Some((FromArg(id), end + 1, id + 1))
          case Index(n) => if id > 0 then None else Some((FromArg(n), end + 1, MANUAL))
          case Name(name) => Some((FromName(name), end + 1, id))
          case Malformed => None
    else Some((Absent, pos, id))
  }

  /** The law is what the dynamic specifiers of the library obey. */
  lemma DynamicSpecsAreLawful<A(!new), T(!new)>(typeOf: A -> T, default: A -> string,
                                                withSpecs: (Dynamic, seq<A>, nat) -> Option<string>)
    ensures Lawful(Formatting(typeOf, default,
                              (t: T, fmt: string, pos: nat, id: int) =>
                                if pos <= |fmt| then ParseDynamicSpec(fmt, pos, id) else None,
                              withSpecs))
  {
    forall fmt: string, pos: nat | pos <= |fmt| && ParseDynamicSpec(fmt, pos, MANUAL).Some?
      ensures ParseDynamicSpec(fmt, pos, MANUAL).value.2 == MANUAL && ParseDynamicSpec(fmt, pos, 0).Some?
      ensures ParseDynamicSpec(fmt, pos, 0).value.0 == ParseDynamicSpec(fmt, pos, MANUAL).value.0
      ensures ParseDynamicSpec(fmt, pos, 0).value.1 == ParseDynamicSpec(fmt, pos, MANUAL).value.1
    {
    }
  }

  function Types<A, T, S>(fm: Formatting<A, T, S>, args: seq<A>): (types: seq<T>)
    ensures |types| == |args| && forall i :: 0 <= i < |args| ==> types[i] == fm.typeOf(args[i])
  {
    seq(|args|, i requires 0 <= i < |args| => fm.typeOf(args[i]))
  }

  // ---------------------------------------------------------------- the runtime formatter

  /** The output so far and the next automatic argument id. */
  datatype Context = Context(out: string, nextId: int)

  function NextArgId(h: Context): Option<(Context, int)> {
    if h.nextId < 0 then None else Some((h.(nextId := h.nextId + 1), h.nextId))
  }

  function CheckArgId(h: Context, id: int): Option<(Context, int)> {
    if h.nextId > 0 then None else Some((h.(nextId := MANUAL), id))
  }

  function FormatField<A, T, S>(fm: Formatting<A, T, S>, args: seq<A>, h: Context, id: int): Option<Context> {
    if 0 <= id < |args| then Some(h.(out := h.out + fm.default(args[id]))) else None
  }

  function FormatSpecs<A, T, S>(fm: Formatting<A, T, S>, args: seq<A>, fmt: string, h: Context, id: int, pos: nat)
    : Option<(Context, nat)>
  {
    if !(0 <= id < |args|) then None
    else match fm.parseSpecs(fm.typeOf(args[id]), fmt, pos, h.nextId)
      case None => None
      case Some((specs, end, nextId)) =>
        if end >= |fmt| || fmt[end] != '}' then None
        else match fm.withSpecs(specs, args, id)
          case None => None
          case Some(text) => Some((Context(h.out + text, nextId), end))
  }

  /** `format_handler`, for arguments without names. */
  function FormatHandler<A, T, S>(fm: Formatting<A, T, S>, args: seq<A>, fmt: string): Handler<Context> {
    Handler(
      (h: Context, text: string) => h.(out := h.out + text),
      (h: Context) => NextArgId(h),
      (h: Context, id: int) => CheckArgId(h, id),
      (h: Context, name: string) => None,
      (h: Context, id: int, pos: nat) => FormatField(fm, args, h, id),
      (h: Context, id: int, pos: nat) => FormatSpecs(fm, args, fmt, h, id, pos))
  }

  lemma HandlerBehaves<A(!new), T(!new), S(!new)>(fm: Formatting<A, T, S>, args: seq<A>, fmt: string)
    requires Lawful(fm)
    ensures StaysInside(FormatHandler(fm, args, fmt), fmt) && IgnoresEmptyText(FormatHandler(fm, args, fmt))
  {
    forall h: Context
      ensures h.(out := h.out + "") == h
    {
      assert h.out + "" == h.out;
    }
  }

  /** `vformat_to`: the output, or None when an error was thrown. */
  function VFormat<A(!new), T(!new), S(!new)>(fm: Formatting<A, T, S>, args: seq<A>, fmt: string): Option<string>
    requires Lawful(fm)
  {
    if fmt == "{}" then if |args| == 0 then None else Some(fm.default(args[0]))
    else
      HandlerBehaves(fm, args, fmt);
      match Parse(FormatHandler(fm, args, fmt), fmt, Context("", 0), 0, 0)
      case Done(h) => Some(h.out)
      case Failed(_, _) => None
  }

  // ---------------------------------------------------------------- the compiler

  datatype Tree<S> =
    | Text(data: string)
    | CodeUnit(value: char)
    | Field(n: nat)
    | SpecField(n: nat, specs: S)
    | NamedField(name: string)
    | Concat(lhs: Tree<S>, rhs: Tree<S>)

  /** `parse_text`: the first brace from `pos` on, or the end. */
  function ParseText(fmt: string, pos: nat): (end: nat)
    requires pos <= |fmt|
    ensures pos <= end <= |fmt|
    ensures forall i :: pos <= i < end ==> fmt[i] != '{' && fmt[i] != '}'
    ensures end < |fmt| ==> fmt[end] == '{' || fmt[end] == '}'
    decreases |fmt| - pos
  {
    if pos == |fmt| || fmt[pos] == '{' || fmt[pos] == '}' then pos else ParseText(fmt, pos + 1)
  }

  /** The tree for a stretch of plain text; a single character has a node of its own. */
  function TextPiece<S>(fmt: string, pos: nat, end: nat): Tree<S>
    requires pos < end <= |fmt|
  {
    if end - pos > 1 then Text(fmt[pos..end]) else CodeUnit(fmt[pos])
  }

  /** `compile_format_string` from `pos` on; None when the string does not compile. `id` is the next
      automatic argument id, or MANUAL. */
  function Compile<A(!new), T(!new), S(!new)>(fm: Formatting<A, T, S>, types: seq<T>, fmt: string, pos: nat, id: int)
    : Option<Tree<S>>
    requires pos < |fmt| && Lawful(fm)
    decreases |fmt| - pos, 2
  {
    if fmt[pos] == '{' then
      if pos + 1 == |fmt| then None
      else if fmt[pos + 1] == '{' then ParseTail(fm, types, fmt, Text("{"), pos + 2, id)
      else if fmt[pos + 1] == '}' || fmt[pos + 1] == ':' then
        if id < 0 then None else FieldThenTail(fm, types, fmt, pos + 1, id, id + 1)
      else
        var (argId, end) := ParseArgId(fmt, pos + 1);
        if end == |fmt| || (fmt[end] != '}' && fmt[end] != ':') then None
        else match argId
          case Index(n) =>
            if (id == MANUAL || id == 0) && n >= 0 then FieldThenTail(fm, types, fmt, end, n, MANUAL) else None
          case Name(name) =>
            if fmt[end] == '}' then ParseTail(fm, types, fmt, NamedField(name), end + 1, id) else None
          case _ => None
    else if fmt[pos] == '}' then
      if pos + 1 == |fmt| then None else ParseTail(fm, types, fmt, Text("}"), pos + 2, id)
    else
      var end := ParseText(fmt, pos + 1);
      ParseTail(fm, types, fmt, TextPiece(fmt, pos, end), end, id)
  }

  /** `parse_tail` */
  function ParseTail<A(!new), T(!new), S(!new)>(fm: Formatting<A, T, S>, types: seq<T>, fmt: string, head: Tree<S>,
                                                pos: nat, id: int): Option<Tree<S>>
    requires pos <= |fmt| && Lawful(fm)
    decreases |fmt| - pos, 3
  {
    if pos == |fmt| then Some(head)
    else match Compile(fm, types, fmt, pos, id)
      case None => None
      case Some(tail) => Some(Concat(head, tail))
  }

  /** `parse_replacement_field_then_tail` for argument `n`, its id ending at `end`. */
  function FieldThenTail<A(!new), T(!new), S(!new)>(fm: Formatting<A, T, S>, types: seq<T>, fmt: string, end: nat,
                                                    n: nat, nextId: int): Option<Tree<S>>
    requires end < |fmt| && Lawful(fm)
    decreases |fmt| - end, 4
  {
    if n >= |types| then None
    else if fmt[end] == '}' then ParseTail(fm, types, fmt, Field(n), end + 1, nextId)
    else if fmt[end] != ':' then None
    else
      var startId := if nextId == MANUAL then 0 else nextId;
      match fm.parseSpecs(types[n], fmt, end + 1, startId)
      case None => None
      case Some((specs, stop, idAfter)) =>
        if stop >= |fmt| || fmt[stop] != '}' then None
        else ParseTail(fm, types, fmt, SpecField(n, specs), stop + 1, if startId == 0 then MANUAL else idAfter)
  }

  /** `compile` */
  function CompileString<A(!new), T(!new), S(!new)>(fm: Formatting<A, T, S>, types: seq<T>,
                                                    fmt: string): Option<Tree<S>>
    requires Lawful(fm)
  {
    if fmt == "" then Some(Text("")) else Compile(fm, types, fmt, 0, 0)
  }

  /** Formatting a compiled tree; None when an error was thrown. */
  function Format<A, T, S>(fm: Formatting<A, T, S>, tree: Tree<S>, args: seq<A>): Option<string> {
    match tree
    case Text(data) => Some(data)
    case CodeUnit(value) => Some([value])
    case Field(n) => if n < |args| then Some(fm.default(args[n])) else None
    case SpecField(n, specs) => if n < |args| then fm.withSpecs(specs, args, n) else None
    case NamedField(_) => None
    case Concat(lhs, rhs) =>
      match (Format(fm, lhs, args), Format(fm, rhs, args))
      case (Some(l), Some(r)) => Some(l + r)
      case _ => None
  }

  // ---------------------------------------------------------------- compiling preserves the meaning

  predicate SameWhenDone(a: Outcome<Context>, b: Outcome<Context>) {
    (a.Done? <==> b.Done?) && (a.Done? ==> a == b)
  }

  /** Text may be handed over at any point: only the concatenation matters to the format handler. */
  lemma {:induction false} HandOverText<A(!new), T(!new), S(!new)>(fm: Formatting<A, T, S>, args: seq<A>, fmt: string,
                                                                   h: Context, begin: nat, p: nat)
    requires begin <= p <= |fmt| && Lawful(fm) && StaysInside(FormatHandler(fm, args, fmt), fmt)
    ensures SameWhenDone(Parse(FormatHandler(fm, args, fmt), fmt, h, begin, p),
                         Parse(FormatHandler(fm, args, fmt), fmt, h.(out := h.out + fmt[begin..p]), p, p))
    decreases |fmt| - p
  {
    var h' := h.(out := h.out + fmt[begin..p]);
    if p == |fmt| {
      assert fmt[begin..] == fmt[begin..p] && h'.out + fmt[p..] == h.out + fmt[begin..];
    } else if fmt[p] == '{' {
      assert h'.out + fmt[p..p] == h'.out;
    } else {
      assert fmt[begin..p + 1] == fmt[begin..p] + fmt[p..p + 1];
      assert h.out + fmt[begin..p + 1] == h'.out + fmt[p..p + 1];
      if fmt[p] != '}' {
        HandOverText(fm, args, fmt, h, begin, p + 1);
        HandOverText(fm, args, fmt, h', p, p + 1);
      }
    }
  }

  lemma {:induction false} SkipPlainText<A(!new), T(!new), S(!new)>(fm: Formatting<A, T, S>, args: seq<A>, fmt: string,
                                                                    h: Context, begin: nat, p: nat, end: nat)
    requires begin <= p <= end <= |fmt| && Lawful(fm) && StaysInside(FormatHandler(fm, args, fmt), fmt)
    requires forall i :: p <= i < end ==> fmt[i] != '{' && fmt[i] != '}'
    ensures Parse(FormatHandler(fm, args, fmt), fmt, h, begin, p)
         == Parse(FormatHandler(fm, args, fmt), fmt, h, begin, end)
    decreases end - p
  {
    if p < end {
      SkipPlainText(fm, args, fmt, h, begin, p + 1, end);
    }
  }

  /** A compiled tree that appends to `h.out` what the rest of the runtime parse appends. */
  ghost predicate Agrees<A(!new), T(!new), S(!new)>(fm: Formatting<A, T, S>, args: seq<A>, before: string,
                                                    tree: Option<Tree<S>>, run: Outcome<Context>)
  {
    && tree.Some? && Format(fm, tree.value, args).Some?
    && run.Done? && run.h.out == before + Format(fm, tree.value, args).value
  }

  lemma TailAgrees<A(!new), T(!new), S(!new)>(fm: Formatting<A, T, S>, args: seq<A>, fmt: string, h: Context,
                                              before: string, head: Tree<S>, pos: nat)
    requires pos <= |fmt| && Lawful(fm) && StaysInside(FormatHandler(fm, args, fmt), fmt) && h.nextId >= MANUAL
    requires Format(fm, head, args).Some? && h.out == before + Format(fm, head, args).value
    requires Parse(FormatHandler(fm, args, fmt), fmt, h, pos, pos).Done?
    ensures Agrees(fm, args, before, ParseTail(fm, Types(fm, args), fmt, head, pos, h.nextId),
                   Parse(FormatHandler(fm, args, fmt), fmt, h, pos, pos))
    decreases |fmt| - pos, 5
  {
    if pos == |fmt| {
      assert h.out + fmt[pos..] == h.out;
    } else {
      CompileAgrees(fm, args, fmt, h, pos);
      var tail := Compile(fm, Types(fm, args), fmt, pos, h.nextId).value;
      var l, r := Format(fm, head, args).value, Format(fm, tail, args).value;
      assert before + l + r == before + (l + r);
    }
  }

  /** A field with specifiers: the compiler starts the specifier parser undecided when indexing is manual. */
  lemma SpecsAgree<A(!new), T(!new), S(!new)>(fm: Formatting<A, T, S>, args: seq<A>, fmt: string, h: Context,
                                              n: nat, colon: nat, h': Context, stop: nat)
    requires colon < |fmt| && fmt[colon] == ':' && Lawful(fm) && StaysInside(FormatHandler(fm, args, fmt), fmt)
    requires h.nextId == MANUAL || h.nextId > 0
    requires FormatSpecs(fm, args, fmt, h, n, colon + 1) == Some((h', stop)) && stop < |fmt| && fmt[stop] == '}'
    requires Parse(FormatHandler(fm, args, fmt), fmt, h', stop + 1, stop + 1).Done?
    ensures Agrees(fm, args, h.out, FieldThenTail(fm, Types(fm, args), fmt, colon, n, h.nextId),
                   Parse(FormatHandler(fm, args, fmt), fmt, h', stop + 1, stop + 1))
    decreases |fmt| - colon, 2
  {
    var specs := fm.parseSpecs(fm.typeOf(args[n]), fmt, colon + 1, h.nextId).value.0;
    TailAgrees(fm, args, fmt, h', h.out, SpecField(n, specs), stop + 1);
  }

  /** A replacement field at `open` that the runtime formatter accepts. */
  lemma FieldAgrees<A(!new), T(!new), S(!new)>(fm: Formatting<A, T, S>, args: seq<A>, fmt: string, h: Context,
                                               open: nat,
                                               h': Context, next: nat)
    requires open < |fmt| && fmt[open] == '{' && Lawful(fm) && StaysInside(FormatHandler(fm, args, fmt), fmt)
    requires h.nextId >= MANUAL
    requires ParseReplacementField(FormatHandler(fm, args, fmt), fmt, h, open) == Continue(h', next)
    requires Parse(FormatHandler(fm, args, fmt), fmt, h', next, next).Done?
    ensures Agrees(fm, args, h.out, Compile(fm, Types(fm, args), fmt, open, h.nextId),
                   Parse(FormatHandler(fm, args, fmt), fmt, h', next, next))
    decreases |fmt| - open, 3
  {
    var begin := open + 1;
    if fmt[begin] == '{' {
      TailAgrees(fm, args, fmt, h', h.out, Text("{"), next);
    } else if fmt[begin] == '}' {
      TailAgrees(fm, args, fmt, h', h.out, Field(h.nextId), next);
    } else {
      FieldWithIdAgrees(fm, args, fmt, h, open, h', next);
    }
  }

  lemma FieldWithIdAgrees<A(!new), T(!new), S(!new)>(fm: Formatting<A, T, S>, args: seq<A>, fmt: string, h: Context,
                                                     open: nat, h': Context, next: nat)
    requires open + 1 < |fmt| && fmt[open] == '{' && fmt[open + 1] != '{' && fmt[open + 1] != '}'
    requires Lawful(fm) && StaysInside(FormatHandler(fm, args, fmt), fmt) && h.nextId >= MANUAL
    requires ParseReplacementField(FormatHandler(fm, args, fmt), fmt, h, open) == Continue(h', next)
    requires Parse(FormatHandler(fm, args, fmt), fmt, h', next, next).Done?
    ensures Agrees(fm, args, h.out, Compile(fm, Types(fm, args), fmt, open, h.nextId),
                   Parse(FormatHandler(fm, args, fmt), fmt, h', next, next))
    decreases |fmt| - open, 2
  {
    var (argId, end) := ParseArgId(fmt, open + 1);
    var (h1, id) := OnArgId(FormatHandler(fm, args, fmt), h, argId).value;
    assert h1.out == h.out && id >= 0 && (h1.nextId == MANUAL || h1.nextId > 0);
    if fmt[end] == '}' {
      TailAgrees(fm, args, fmt, h', h.out, Field(id), next);
    } else {
      SpecsAgree(fm, args, fmt, h1, id, end, h', next - 1);
    }
  }

  /** A stretch of plain text, up to the next brace or the end. */
  lemma PlainTextAgrees<A(!new), T(!new), S(!new)>(fm: Formatting<A, T, S>, args: seq<A>, fmt: string, h: Context,
                                                   pos: nat)
    requires pos < |fmt| && Lawful(fm) && StaysInside(FormatHandler(fm, args, fmt), fmt) && h.nextId >= MANUAL
    requires fmt[pos] != '{' && fmt[pos] != '}'
    requires Parse(FormatHandler(fm, args, fmt), fmt, h, pos, pos).Done?
    ensures Agrees(fm, args, h.out, Compile(fm, Types(fm, args), fmt, pos, h.nextId),
                   Parse(FormatHandler(fm, args, fmt), fmt, h, pos, pos))
    decreases |fmt| - pos, 3
  {
    var end := ParseText(fmt, pos + 1);
    PlainTextRuns(fm, args, fmt, h, pos, end);
    TextPieceFormats(fm, args, fmt, pos, end);
    TailAgrees(fm, args, fmt, h.(out := h.out + fmt[pos..end]), h.out, TextPiece(fmt, pos, end), end);
  }

  lemma TextPieceFormats<A, T, S>(fm: Formatting<A, T, S>, args: seq<A>, fmt: string, pos: nat, end: nat)
    requires pos < end <= |fmt|
    ensures Format(fm, TextPiece(fmt, pos, end), args) == Some(fmt[pos..end])
  {
    if end == pos + 1 {
      assert [fmt[pos]] == fmt[pos..end];
    }
  }

  lemma PlainTextRuns<A(!new), T(!new), S(!new)>(fm: Formatting<A, T, S>, args: seq<A>, fmt: string, h: Context,
                                                 pos: nat, end: nat)
    requires pos <= end <= |fmt| && Lawful(fm) && StaysInside(FormatHandler(fm, args, fmt), fmt)
    requires forall i :: pos <= i < end ==> fmt[i] != '{' && fmt[i] != '}'
    ensures SameWhenDone(Parse(FormatHandler(fm, args, fmt), fmt, h, pos, pos),
                         Parse(FormatHandler(fm, args, fmt), fmt, h.(out := h.out + fmt[pos..end]), end, end))
  {
    SkipPlainText(fm, args, fmt, h, pos, pos, end);
    HandOverText(fm, args, fmt, h, pos, end);
  }

  lemma ClosingBraceAgrees<A(!new), T(!new), S(!new)>(fm: Formatting<A, T, S>, args: seq<A>, fmt: string, h: Context,
                                                      pos: nat)
    requires pos < |fmt| && Lawful(fm) && StaysInside(FormatHandler(fm, args, fmt), fmt) && h.nextId >= MANUAL
    requires fmt[pos] == '}'
    requires Parse(FormatHandler(fm, args, fmt), fmt, h, pos, pos).Done?
    ensures Agrees(fm, args, h.out, Compile(fm, Types(fm, args), fmt, pos, h.nextId),
                   Parse(FormatHandler(fm, args, fmt), fmt, h, pos, pos))
    decreases |fmt| - pos, 3
  {
    assert fmt[pos..pos + 1] == "}";
    TailAgrees(fm, args, fmt, h.(out := h.out + "}"), h.out, Text("}"), pos + 2);
  }

  lemma CompileAgrees<A(!new), T(!new), S(!new)>(fm: Formatting<A, T, S>, args: seq<A>, fmt: string, h: Context,
                                                 pos: nat)
    requires pos < |fmt| && Lawful(fm) && StaysInside(FormatHandler(fm, args, fmt), fmt) && h.nextId >= MANUAL
    requires Parse(FormatHandler(fm, args, fmt), fmt, h, pos, pos).Done?
    ensures Agrees(fm, args, h.out, Compile(fm, Types(fm, args), fmt, pos, h.nextId),
                   Parse(FormatHandler(fm, args, fmt), fmt, h, pos, pos))
    decreases |fmt| - pos, 4
  {
    if fmt[pos] == '{' {
      assert h.out + fmt[pos..pos] == h.out;
      var r := ParseReplacementField(FormatHandler(fm, args, fmt), fmt, h, pos);
      FieldAgrees(fm, args, fmt, h, pos, r.h, r.pos);
    } else if fmt[pos] == '}' {
      ClosingBraceAgrees(fm, args, fmt, h, pos);
    } else {
      PlainTextAgrees(fm, args, fmt, h, pos);
    }
  }

  /** Compiler correctness: every string the runtime formatter accepts with these arguments compiles, and
      formatting the compiled tree gives the same output. */
  lemma CompilerIsCorrect<A(!new), T(!new), S(!new)>(fm: Formatting<A, T, S>, args: seq<A>, fmt: string)
    requires Lawful(fm) && VFormat(fm, args, fmt).Some?
    ensures CompileString(fm, Types(fm, args), fmt).Some?
    ensures Format(fm, CompileString(fm, Types(fm, args), fmt).value, args) == VFormat(fm, args, fmt)
  {
    HandlerBehaves(fm, args, fmt);
    ShortcutAgrees(fm, args, fmt);
    if fmt != "" {
      CompileAgrees(fm, args, fmt, Context("", 0), 0);
      assert "" + Format(fm, Compile(fm, Types(fm, args), fmt, 0, 0).value, args).value
          == Format(fm, Compile(fm, Types(fm, args), fmt, 0, 0).value, args).value;
    } else {
      assert "" + ""[0..] == "";
    }
  }

  /** The special case of `vformat_to` for "{}" is no special case. */
  lemma ShortcutAgrees<A(!new), T(!new), S(!new)>(fm: Formatting<A, T, S>, args: seq<A>, fmt: string)
    requires Lawful(fm) && StaysInside(FormatHandler(fm, args, fmt), fmt)
    ensures VFormat(fm, args, fmt) == match Parse(FormatHandler(fm, args, fmt), fmt, Context("", 0), 0, 0)
                                      case Done(h) => Some(h.out)
                                      case Failed(_, _) => None
  {
    if fmt == "{}" {
      assert "" + fmt[0..0] == "";
      var h := Context("", 0);
      assert h.(out := h.out + fmt[0..0]) == h;
      if |args| > 0 {
        var out := fm.default(args[0]);
        assert "" + out == out && out + fmt[2..] == out;
      }
    }
  }

  /** The restriction to accepted strings is needed: the compiler does not look at what follows a
      closing brace outside of a field. */
  lemma UnpairedBraceCompiles<A(!new), T(!new), S(!new)>(fm: Formatting<A, T, S>, args: seq<A>)
    requires Lawful(fm)
    ensures VFormat(fm, args, "}x").None?
    ensures CompileString(fm, Types(fm, args), "}x") == Some(Text("}"))
  {
    HandlerBehaves(fm, args, "}x");
    var s: string := "}x";
    assert |s| == 2 && s[0] == '}' && s[1] == 'x';
  }
}
