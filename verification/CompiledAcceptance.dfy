/**
 Which strings the format-string compiler accepts and the runtime formatter refuses. Apart from arguments
 that are missing or fail to format, which both find out, there are two kinds: strings with a closing brace
 outside of a field that is not doubled, and strings with an automatic argument inside the specifiers of a
 field that is indexed by hand.
 */
module CompiledAcceptance {
  import opened Wrappers
  import opened FormatString
  import opened CompiledFormat

  /** The argument of the field at `pos`, where its id ends, and the next automatic id, for a field without a
      name; None when it cannot be compiled. */
  function FieldHeader(fmt: string, pos: nat, id: int): (r: Option<(nat, nat, int)>)
    requires pos + 1 < |fmt| && fmt[pos] == '{' && fmt[pos + 1] != '{'
    ensures r.Some? ==> pos < r.value.1 < |fmt| && (fmt[r.value.1] == '}' || fmt[r.value.1] == ':')
    ensures r.Some? && id >= MANUAL ==> r.value.2 == MANUAL || r.value.2 > 0
  {
    if fmt[pos + 1] == '}' || fmt[pos + 1] == ':' then if id < 0 then None else Some((id, pos + 1, id + 1))
    else
      var (argId, end) := ParseArgId(fmt, pos + 1);
      if end == |fmt| || (fmt[end] != '}' && fmt[end] != ':') then None
      else if argId.Index? && (id == MANUAL || id == 0) && argId.n >= 0 then Some((argId.n, end, MANUAL))
      else None
  }

  /** What the compiler leaves unchecked holds from `pos` on: a '}' outside of a field is followed by another
      one, and specifiers behind a written argument id are still in order when no automatic argument may be
      drawn. */
  predicate Checked<A(!new), T(!new), S(!new)>(fm: Formatting<A, T, S>, types: seq<T>, fmt: string, pos: nat, id: int)
    requires pos <= |fmt| && Lawful(fm)
    decreases |fmt| - pos, 1
  {
    if pos == |fmt| then true
    else if fmt[pos] == '}' then
      pos + 1 < |fmt| && fmt[pos + 1] == '}' && Checked(fm, types, fmt, pos + 2, id)
    else if fmt[pos] != '{' then Checked(fm, types, fmt, ParseText(fmt, pos + 1), id)
    else if pos + 1 == |fmt| then true
    else if fmt[pos + 1] == '{' then Checked(fm, types, fmt, pos + 2, id)
    else match FieldHeader(fmt, pos, id)
      case None => true
      case Some((n, end, next)) =>
        if fmt[end] == '}' then Checked(fm, types, fmt, end + 1, next)
        else n < |types| ==> SpecsChecked(fm, types, fmt, end, n, next)
  }

  predicate SpecsChecked<A(!new), T(!new), S(!new)>(fm: Formatting<A, T, S>, types: seq<T>, fmt: string, colon: nat,
                                                    n: nat, next: int)
    requires colon < |fmt| && n < |types| && Lawful(fm)
    decreases |fmt| - colon, 0
  {
    match fm.parseSpecs(types[n], fmt, colon + 1, if next == MANUAL then 0 else next)
    case None => true
    case Some((_, stop, idAfter)) =>
      (next == MANUAL ==> fm.parseSpecs(types[n], fmt, colon + 1, MANUAL).Some?) &&
      (stop < |fmt| && fmt[stop] == '}' ==>
         Checked(fm, types, fmt, stop + 1, if next == MANUAL then MANUAL else idAfter))
  }

  /** The string compiles from `pos` on, and the tree formats with these arguments. */
  ghost predicate Compiles<A(!new), T(!new), S(!new)>(fm: Formatting<A, T, S>, args: seq<A>, fmt: string, pos: nat,
                                                      id: int)
    requires pos <= |fmt| && Lawful(fm)
  {
    pos == |fmt| ||
    (Compile(fm, Types(fm, args), fmt, pos, id).Some? &&
     Format(fm, Compile(fm, Types(fm, args), fmt, pos, id).value, args).Some?)
  }

  ghost predicate Accepts<A(!new), T(!new), S(!new)>(fm: Formatting<A, T, S>, args: seq<A>, fmt: string, h: Context,
                                                     pos: nat)
    requires pos <= |fmt| && Lawful(fm)
  {
    HandlerBehaves(fm, args, fmt);
    Parse(FormatHandler(fm, args, fmt), fmt, h, pos, pos).Done?
  }

  lemma TailCompiles<A(!new), T(!new), S(!new)>(fm: Formatting<A, T, S>, args: seq<A>, fmt: string, head: Tree<S>,
                                                pos: nat, id: int)
    requires pos <= |fmt| && Lawful(fm)
    requires ParseTail(fm, Types(fm, args), fmt, head, pos, id).Some?
    requires Format(fm, ParseTail(fm, Types(fm, args), fmt, head, pos, id).value, args).Some?
    ensures Compiles(fm, args, fmt, pos, id) && Format(fm, head, args).Some?
  {}

  lemma AcceptedIffChecked<A(!new), T(!new), S(!new)>(fm: Formatting<A, T, S>, args: seq<A>, fmt: string, h: Context,
                                                      pos: nat)
    requires pos <= |fmt| && Lawful(fm) && h.nextId >= MANUAL && Compiles(fm, args, fmt, pos, h.nextId)
    ensures Accepts(fm, args, fmt, h, pos) <==> Checked(fm, Types(fm, args), fmt, pos, h.nextId)
    decreases |fmt| - pos, 2
  {
    if pos == |fmt| {
    } else if fmt[pos] == '}' {
      BraceAccepted(fm, args, fmt, h, pos);
    } else if fmt[pos] == '{' {
      OpenBraceAccepted(fm, args, fmt, h, pos);
    } else {
      TextAccepted(fm, args, fmt, h, pos);
    }
  }

  lemma BraceAccepted<A(!new), T(!new), S(!new)>(fm: Formatting<A, T, S>, args: seq<A>, fmt: string, h: Context,
                                                 pos: nat)
    requires pos < |fmt| && Lawful(fm) && h.nextId >= MANUAL && Compiles(fm, args, fmt, pos, h.nextId)
    requires fmt[pos] == '}'
    ensures Accepts(fm, args, fmt, h, pos) <==> Checked(fm, Types(fm, args), fmt, pos, h.nextId)
    decreases |fmt| - pos, 1
  {
    HandlerBehaves(fm, args, fmt);
    TailCompiles(fm, args, fmt, Text("}"), pos + 2, h.nextId);
    AcceptedIffChecked(fm, args, fmt, h.(out := h.out + fmt[pos..pos + 1]), pos + 2);
  }

  lemma TextAccepted<A(!new), T(!new), S(!new)>(fm: Formatting<A, T, S>, args: seq<A>, fmt: string, h: Context,
                                                pos: nat)
    requires pos < |fmt| && Lawful(fm) && h.nextId >= MANUAL && Compiles(fm, args, fmt, pos, h.nextId)
    requires fmt[pos] != '}' && fmt[pos] != '{'
    ensures Accepts(fm, args, fmt, h, pos) <==> Checked(fm, Types(fm, args), fmt, pos, h.nextId)
    decreases |fmt| - pos, 1
  {
    HandlerBehaves(fm, args, fmt);
    var end := ParseText(fmt, pos + 1);
    PlainTextRuns(fm, args, fmt, h, pos, end);
    TailCompiles(fm, args, fmt, TextPiece(fmt, pos, end), end, h.nextId);
    AcceptedIffChecked(fm, args, fmt, h.(out := h.out + fmt[pos..end]), end);
  }

  lemma OpenBraceAccepted<A(!new), T(!new), S(!new)>(fm: Formatting<A, T, S>, args: seq<A>, fmt: string, h: Context,
                                                     pos: nat)
    requires pos < |fmt| && Lawful(fm) && h.nextId >= MANUAL && Compiles(fm, args, fmt, pos, h.nextId)
    requires fmt[pos] == '{'
    ensures Accepts(fm, args, fmt, h, pos) <==> Checked(fm, Types(fm, args), fmt, pos, h.nextId)
    decreases |fmt| - pos, 1
  {
    HandlerBehaves(fm, args, fmt);
    assert h.(out := h.out + fmt[pos..pos]) == h;
    if fmt[pos + 1] == '{' {
      TailCompiles(fm, args, fmt, Text("{"), pos + 2, h.nextId);
      AcceptedIffChecked(fm, args, fmt, h.(out := h.out + "{"), pos + 2);
    } else {
      FieldAccepted(fm, args, fmt, h, pos);
    }
  }

  /** What the runtime formatter does with a field whose argument is `n`, its id ending at `end`. */
  ghost predicate FieldAccepts<A(!new), T(!new), S(!new)>(fm: Formatting<A, T, S>, args: seq<A>, fmt: string,
                                                          h: Context,
                                                          n: nat, end: nat)
    requires end < |fmt| && Lawful(fm)
  {
    match FieldStep(fm, args, fmt, h, n, end)
    case None => false
    case Some((h', pos)) => pos <= |fmt| && Accepts(fm, args, fmt, h', pos)
  }

  lemma FieldRuns<A(!new), T(!new), S(!new)>(fm: Formatting<A, T, S>, args: seq<A>, fmt: string, h: Context, pos: nat)
    requires pos + 1 < |fmt| && Lawful(fm) && h.nextId >= MANUAL && fmt[pos] == '{' && fmt[pos + 1] != '{'
    requires FieldHeader(fmt, pos, h.nextId).Some?
    ensures var (n, end, next) := FieldHeader(fmt, pos, h.nextId).value;
            Accepts(fm, args, fmt, h, pos) <==> FieldAccepts(fm, args, fmt, Context(h.out, next), n, end)
  {
    HandlerBehaves(fm, args, fmt);
    FieldStarts(fm, args, fmt, h, pos);
    FieldResult(fm, args, fmt, h, pos);
  }

  /** The next handler state and position, if the field is in order. */
  function FieldStep<A, T, S>(fm: Formatting<A, T, S>, args: seq<A>, fmt: string, h: Context, n: nat, end: nat)
    : Option<(Context, nat)>
    requires end < |fmt|
  {
    if fmt[end] == '}' then
      if n < |args| then Some((h.(out := h.out + fm.default(args[n])), end + 1)) else None
    else match FormatSpecs(fm, args, fmt, h, n, end + 1)
      case None => None
      case Some((h', stop)) => if stop < |fmt| && fmt[stop] == '}' then Some((h', stop + 1)) else None
  }

  lemma FieldResult<A(!new), T(!new), S(!new)>(fm: Formatting<A, T, S>, args: seq<A>, fmt: string, h: Context, pos: nat)
    requires pos + 1 < |fmt| && h.nextId >= MANUAL && fmt[pos] == '{' && fmt[pos + 1] != '{'
    requires FieldHeader(fmt, pos, h.nextId).Some? && StaysInside(FormatHandler(fm, args, fmt), fmt)
    ensures var (n, end, next) := FieldHeader(fmt, pos, h.nextId).value;
            var r, step := ParseReplacementField(FormatHandler(fm, args, fmt), fmt, h, pos),
                           FieldStep(fm, args, fmt, Context(h.out, next), n, end);
            (r.Continue? <==> step.Some?) && (r.Continue? ==> step == Some((r.h, r.pos)))
  {
    if fmt[pos + 1] != '}' {
      IdResult(fm, args, fmt, h, pos);
    }
  }

  lemma IdResult<A(!new), T(!new), S(!new)>(fm: Formatting<A, T, S>, args: seq<A>, fmt: string, h: Context, pos: nat)
    requires pos + 1 < |fmt| && h.nextId >= MANUAL && fmt[pos] == '{'
    requires fmt[pos + 1] != '{' && fmt[pos + 1] != '}'
    requires FieldHeader(fmt, pos, h.nextId).Some? && StaysInside(FormatHandler(fm, args, fmt), fmt)
    ensures var (n, end, next) := FieldHeader(fmt, pos, h.nextId).value;
            var r, step := ParseReplacementField(FormatHandler(fm, args, fmt), fmt, h, pos),
                           FieldStep(fm, args, fmt, Context(h.out, next), n, end);
            (r.Continue? <==> step.Some?) && (r.Continue? ==> step == Some((r.h, r.pos)))
  {
    IdIsTaken(fm, args, fmt, h, pos);
  }

  lemma IdIsTaken<A(!new), T(!new), S(!new)>(fm: Formatting<A, T, S>, args: seq<A>, fmt: string, h: Context, pos: nat)
    requires pos + 1 < |fmt| && h.nextId >= MANUAL && fmt[pos] == '{' && fmt[pos + 1] != '{' && fmt[pos + 1] != '}'
    requires FieldHeader(fmt, pos, h.nextId).Some?
    ensures var (n, end, next) := FieldHeader(fmt, pos, h.nextId).value;
            var (argId, idEnd) := ParseArgId(fmt, pos + 1);
            idEnd == end && OnArgId(FormatHandler(fm, args, fmt), h, argId) == Some((Context(h.out, next), n as int))
  {}

  lemma FieldStarts<A(!new), T(!new), S(!new)>(fm: Formatting<A, T, S>, args: seq<A>, fmt: string, h: Context, pos: nat)
    requires pos < |fmt| && Lawful(fm) && fmt[pos] == '{'
    requires StaysInside(FormatHandler(fm, args, fmt), fmt)
    ensures Accepts(fm, args, fmt, h, pos) <==>
            var r := ParseReplacementField(FormatHandler(fm, args, fmt), fmt, h, pos);
            r.Continue? && Accepts(fm, args, fmt, r.h, r.pos)
  {
    assert h.(out := h.out + fmt[pos..pos]) == h;
  }

  lemma FieldCompiles<A(!new), T(!new), S(!new)>(fm: Formatting<A, T, S>, args: seq<A>, fmt: string, pos: nat, id: int)
    requires pos + 1 < |fmt| && Lawful(fm) && id >= MANUAL && Compiles(fm, args, fmt, pos, id)
    requires fmt[pos] == '{' && fmt[pos + 1] != '{'
    ensures FieldHeader(fmt, pos, id).Some?
    ensures var (n, end, next) := FieldHeader(fmt, pos, id).value;
            Compile(fm, Types(fm, args), fmt, pos, id) == FieldThenTail(fm, Types(fm, args), fmt, end, n, next)
  {
    if fmt[pos + 1] != '}' && fmt[pos + 1] != ':' {
      var (argId, end) := ParseArgId(fmt, pos + 1);
      if argId.Name? && end < |fmt| {
        NamesDoNotFormat(fm, args, fmt, argId.id, end + 1, id);
      }
    }
  }

  lemma NamesDoNotFormat<A(!new), T(!new), S(!new)>(fm: Formatting<A, T, S>, args: seq<A>, fmt: string, name: string,
                                                    pos: nat, id: int)
    requires pos <= |fmt| && Lawful(fm)
    ensures var tree := ParseTail(fm, Types(fm, args), fmt, NamedField(name), pos, id);
            tree.Some? ==> Format(fm, tree.value, args).None?
  {}

  lemma FieldAccepted<A(!new), T(!new), S(!new)>(fm: Formatting<A, T, S>, args: seq<A>, fmt: string, h: Context,
                                                 pos: nat)
    requires pos + 1 < |fmt| && Lawful(fm) && h.nextId >= MANUAL && Compiles(fm, args, fmt, pos, h.nextId)
    requires fmt[pos] == '{' && fmt[pos + 1] != '{'
    ensures Accepts(fm, args, fmt, h, pos) <==> Checked(fm, Types(fm, args), fmt, pos, h.nextId)
    decreases |fmt| - pos, 0
  {
    FieldCompiles(fm, args, fmt, pos, h.nextId);
    var (n, end, next) := FieldHeader(fmt, pos, h.nextId).value;
    FieldRuns(fm, args, fmt, h, pos);
    FieldChecks(fm, Types(fm, args), fmt, pos, h.nextId);
    if fmt[end] == '}' {
      PlainFieldAccepted(fm, args, fmt, Context(h.out, next), n, end);
    } else {
      SpecsAccepted(fm, args, fmt, Context(h.out, next), n, end);
    }
  }

  lemma FieldChecks<A(!new), T(!new), S(!new)>(fm: Formatting<A, T, S>, types: seq<T>, fmt: string, pos: nat, id: int)
    requires pos + 1 < |fmt| && Lawful(fm) && fmt[pos] == '{' && fmt[pos + 1] != '{' && FieldHeader(fmt, pos, id).Some?
    ensures var (n, end, next) := FieldHeader(fmt, pos, id).value;
            Checked(fm, types, fmt, pos, id) ==
            if fmt[end] == '}' then Checked(fm, types, fmt, end + 1, next)
            else n < |types| ==> SpecsChecked(fm, types, fmt, end, n, next)
  {}

  lemma PlainFieldAccepted<A(!new), T(!new), S(!new)>(fm: Formatting<A, T, S>, args: seq<A>, fmt: string, h: Context,
                                                      n: nat, end: nat)
    requires end < |fmt| && fmt[end] == '}' && Lawful(fm) && h.nextId >= MANUAL
    requires var tree := FieldThenTail(fm, Types(fm, args), fmt, end, n, h.nextId);
             tree.Some? && Format(fm, tree.value, args).Some?
    ensures FieldAccepts(fm, args, fmt, h, n, end) <==> Checked(fm, Types(fm, args), fmt, end + 1, h.nextId)
    decreases |fmt| - end, 3
  {
    TailCompiles(fm, args, fmt, Field(n), end + 1, h.nextId);
    AcceptedIffChecked(fm, args, fmt, h.(out := h.out + fm.default(args[n])), end + 1);
  }

  lemma SpecsAccepted<A(!new), T(!new), S(!new)>(fm: Formatting<A, T, S>, args: seq<A>, fmt: string, h: Context, n: nat,
                                                 colon: nat)
    requires colon < |fmt| && fmt[colon] == ':' && Lawful(fm) && (h.nextId == MANUAL || h.nextId > 0)
    requires var tree := FieldThenTail(fm, Types(fm, args), fmt, colon, n, h.nextId);
             tree.Some? && Format(fm, tree.value, args).Some?
    ensures FieldAccepts(fm, args, fmt, h, n, colon) <==>
            (n < |args| && SpecsChecked(fm, Types(fm, args), fmt, colon, n, h.nextId))
    decreases |fmt| - colon, 3
  {
    var types := Types(fm, args);
    var (specs, stop, idAfter) :=
      fm.parseSpecs(types[n], fmt, colon + 1, if h.nextId == MANUAL then 0 else h.nextId).value;
    var next := if h.nextId == MANUAL then MANUAL else idAfter;
    TailCompiles(fm, args, fmt, SpecField(n, specs), stop + 1, next);
    var text := fm.withSpecs(specs, args, n).value;
    AcceptedIffChecked(fm, args, fmt, Context(h.out + text, next), stop + 1);
  }

  /** Of the strings that compile, with arguments that format, the runtime formatter accepts exactly those that
      pass what the compiler leaves unchecked. */
  lemma WhenCompiledIsAccepted<A(!new), T(!new), S(!new)>(fm: Formatting<A, T, S>, args: seq<A>, fmt: string)
    requires Lawful(fm) && CompileString(fm, Types(fm, args), fmt).Some?
    requires Format(fm, CompileString(fm, Types(fm, args), fmt).value, args).Some?
    ensures VFormat(fm, args, fmt).Some? <==> Checked(fm, Types(fm, args), fmt, 0, 0)
  {
    HandlerBehaves(fm, args, fmt);
    ShortcutAgrees(fm, args, fmt);
    AcceptedIffChecked(fm, args, fmt, Context("", 0), 0);
  }

  /** Formatting whose specifiers are a dynamic width. */
  function DynamicWidths<A, T>(typeOf: A -> T, default: A -> string,
                               withSpecs: (Dynamic, seq<A>, nat) -> Option<string>)
    : Formatting<A, T, Dynamic>
  {
    Formatting(typeOf, default,
               (t: T, fmt: string, pos: nat, id: int) => if pos <= |fmt| then ParseDynamicSpec(fmt, pos, id) else None,
               withSpecs)
  }

  const WIDTH_FROM_NEXT: string := "{0:{}}"

  /** The second kind: this field is indexed by hand and takes its width from the next argument. It compiles, to
      a field with the width of argument 0, and is refused at run time. */
  lemma NextArgumentCompiles<A(!new), T(!new)>(typeOf: A -> T, default: A -> string,
                                               withSpecs: (Dynamic, seq<A>, nat) -> Option<string>, arg: A)
    requires withSpecs(FromArg(0), [arg], 0).Some?
    ensures var fm := DynamicWidths(typeOf, default, withSpecs);
            Lawful(fm) &&
            CompileString(fm, Types(fm, [arg]), WIDTH_FROM_NEXT) == Some(SpecField(0, FromArg(0))) &&
            VFormat(fm, [arg], WIDTH_FROM_NEXT).None?
  {
    var fm := DynamicWidths(typeOf, default, withSpecs);
    DynamicSpecsAreLawful(typeOf, default, withSpecs);
    var fmt := WIDTH_FROM_NEXT;
    assert |fmt| == 6 && fmt[0] == '{' && fmt[1] == '0' && fmt[2] == ':';
    assert fmt[3] == '{' && fmt[4] == '}' && fmt[5] == '}';
    assert ParseArgId(fmt, 1) == (Index(0), 2) && ParseArgId(fmt, 4) == (Auto, 4);
    assert ParseDynamicSpec(fmt, 3, 0) == Some((FromArg(0), 5, 1));
    assert ParseDynamicSpec(fmt, 3, MANUAL).None?;
    var types := Types(fm, [arg]);
    assert FieldThenTail(fm, types, fmt, 2, 0, MANUAL) == Some(SpecField(0, FromArg(0)));
    assert FieldHeader(fmt, 0, 0) == Some((0, 2, MANUAL));
    assert !SpecsChecked(fm, types, fmt, 2, 0, MANUAL);
    WhenCompiledIsAccepted(fm, [arg], fmt);
  }
}
