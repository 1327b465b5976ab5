/** What the directives of the pattern language of include/spdlog/pattern_formatter-inl.h print, flag by flag, and what
    a pattern of texts and fields prints. */
module PatternMeaning {
  import opened Arithmetic
  import opened Decimal
  import opened Padding
  import opened PatternCompiler
  import opened SeqFacts

  // ----- what each directive prints -----

  /** The flags of the fields: name, level, thread, message, date and time, process, and source location. */
  const FIELDS: set<char> :=
    {'n', 'l', 'L', 't', 'v', 'a', 'A', 'b', 'h', 'B', 'c', 'C', 'Y', 'D', 'x', 'm', 'd', 'H', 'I', 'M',
     'S', 'e', 'f', 'F', 'E', 'p', 'r', 'R', 'T', 'X', 'z', 'P', '@', 's', 'g', '#', '!'}

  const ELAPSED: set<char> := {'u', 'i', 'o', 'O'}

  /** Flags that mean something, and characters that a pad spec may start with. */
  const TAKEN: set<char> :=
    FIELDS + ELAPSED + {'+', '^', '$', '%', '-', '=', '0', '1', '2', '3', '4', '5', '6', '7', '8', '9'}

  function Shown(field: FieldText): string {
    match field case Nothing => "" case Written(text, _) => text
  }

  lemma FlagHasNoPadding(flag: char)
    requires flag != '-' && flag != '=' && !IsDigit(flag)
    ensures Tokens("%" + [flag]) == [Directive(NO_PADDING, flag)] && Complete("%" + [flag])
  {
    var p := "%" + [flag];
    assert p[1..] == [flag];
    assert PadSpec([flag]) == (NO_PADDING, [flag]);
    LastDirective(p, [flag], flag);
    assert [flag][1..] == "" && Complete("");
  }

  lemma OneFormatter(env: Env, f: Formatter, out: Output)
    ensures RenderAll(env, [f], out) == Render(env, f, out)
  {
    assert [f][1..] == [];
    assert RenderAll(env, [], Render(env, f, out)) == Render(env, f, out);
  }

  lemma OneDirective(env: Env, p: string, pad: PadInfo, flag: char, custom: set<char>, out: Output)
    requires Tokens(p) == [Directive(pad, flag)]
    ensures RenderAll(env, Compile(p, custom), out) == RenderAll(env, HandleFlag(flag, pad, custom), out)
  {
    CompileRenders(env, p, custom, out);
    var next := RenderAll(env, HandleFlag(flag, pad, custom), out);
    assert Tokens(p)[1..] == [];
    assert RenderTokens(env, [], custom, next) == next;
  }

  lemma FieldHandled(flag: char, pad: PadInfo, custom: set<char>)
    requires flag in FIELDS && flag !in custom
    ensures HandleFlag(flag, pad, custom) == [Field(flag, pad)]
    ensures flag != '-' && flag != '=' && !IsDigit(flag)
  {
  }

  /** A field prints the text of the field and nothing else. */
  lemma FieldPrints(env: Env, flag: char, custom: set<char>, t: string, start: nat, end: nat)
    requires flag in FIELDS && flag !in custom
    ensures RenderAll(env, Compile("%" + [flag], custom), Output(t, start, end)) ==
            Output(t + Shown(env.field(flag)), start, end)
  {
    FieldHandled(flag, NO_PADDING, custom);
    FlagHasNoPadding(flag);
    OneDirective(env, "%" + [flag], NO_PADDING, flag, custom, Output(t, start, end));
    OneFormatter(env, Field(flag, NO_PADDING), Output(t, start, end));
    assert t + "" == t;
  }

  lemma ElapsedPrints(env: Env, flag: char, custom: set<char>, t: string, start: nat, end: nat)
    requires flag in ELAPSED && flag !in custom
    ensures RenderAll(env, Compile("%" + [flag], custom), Output(t, start, end)) ==
            Output(t + env.elapsed(flag), start, end)
  {
    FlagHasNoPadding(flag);
    OneDirective(env, "%" + [flag], NO_PADDING, flag, custom, Output(t, start, end));
    OneFormatter(env, Elapsed(flag, NO_PADDING, FromStart), Output(t, start, end));
  }

  /** The full format has the level in the colour range. */
  lemma FullPrints(env: Env, custom: set<char>, t: string, start: nat, end: nat)
    requires '+' !in custom
    ensures var head := t + env.date + env.afterDate;
            RenderAll(env, Compile("%+", custom), Output(t, start, end)) ==
            Output(head + env.level + env.afterLevel, |head|, |head| + |env.level|)
  {
    assert "%+" == "%" + ['+'];
    FlagHasNoPadding('+');
    OneDirective(env, "%+", NO_PADDING, '+', custom, Output(t, start, end));
    OneFormatter(env, Full(0, ""), Output(t, start, end));
  }

  /** `%^` and `%$` print nothing and set one end of the colour range each. */
  lemma ColorsPrint(env: Env, custom: set<char>, t: string, start: nat, end: nat)
    requires '^' !in custom && '$' !in custom
    ensures RenderAll(env, Compile("%^", custom), Output(t, start, end)) == Output(t, |t|, end)
    ensures RenderAll(env, Compile("%$", custom), Output(t, start, end)) == Output(t, start, |t|)
  {
    assert "%^" == "%" + ['^'] && "%$" == "%" + ['$'];
    FlagHasNoPadding('^');
    FlagHasNoPadding('$');
    OneDirective(env, "%^", NO_PADDING, '^', custom, Output(t, start, end));
    OneDirective(env, "%$", NO_PADDING, '$', custom, Output(t, start, end));
    OneFormatter(env, ColorStart, Output(t, start, end));
    OneFormatter(env, ColorStop, Output(t, start, end));
  }

  /** An unknown flag prints itself, percent sign and all. */
  lemma UnknownPrints(env: Env, flag: char, custom: set<char>, t: string, start: nat, end: nat)
    requires flag !in TAKEN && flag !in custom
    ensures RenderAll(env, Compile("%" + [flag], custom), Output(t, start, end)) ==
            Output(t + "%" + [flag], start, end)
  {
    NotTaken(flag);
    FlagHasNoPadding(flag);
    OneDirective(env, "%" + [flag], NO_PADDING, flag, custom, Output(t, start, end));
    OneFormatter(env, Chars(['%', flag]), Output(t, start, end));
    assert t + "%" + [flag] == t + ['%', flag];
  }

  lemma FieldFlagsAreFields(flag: char)
    ensures IsFieldFlag(flag) ==> flag in FIELDS
  {
  }

  lemma ElapsedFlagsAreElapsed(flag: char)
    ensures IsElapsedFlag(flag) ==> flag in ELAPSED
  {
  }

  lemma NotTaken(flag: char)
    requires flag !in TAKEN
    ensures flag != '-' && flag != '=' && !IsDigit(flag)
    ensures flag != '+' && flag != '^' && flag != '$' && flag != '%' && !IsFieldFlag(flag) && !IsElapsedFlag(flag)
  {
    FieldFlagsAreFields(flag);
    ElapsedFlagsAreElapsed(flag);
    hide IsFieldFlag, IsElapsedFlag, FIELDS, ELAPSED;
    assert flag !in FIELDS && flag !in ELAPSED;
  }

  /** A flag with a handler of the user's goes to that handler, whatever it means otherwise. */
  lemma CustomPrints(env: Env, flag: char, custom: set<char>, t: string, start: nat, end: nat)
    requires flag in custom && flag != '-' && flag != '=' && !IsDigit(flag)
    ensures RenderAll(env, Compile("%" + [flag], custom), Output(t, start, end)) ==
            env.custom(flag, NO_PADDING, Output(t, start, end))
  {
    FlagHasNoPadding(flag);
    OneDirective(env, "%" + [flag], NO_PADDING, flag, custom, Output(t, start, end));
    OneFormatter(env, Custom(flag, NO_PADDING), Output(t, start, end));
  }

  // ----- pad specs, written and read -----

  /** A pad spec as one writes it: `-` puts the padding on the right, `=` on both sides, `!` truncates. */
  function PadText(side: Side, width: nat, truncate: bool): string {
    (match side case Left => "" case Right => "-" case Center => "=") + Digits(width) + if truncate then "!" else ""
  }

  lemma {:induction false} DigitRunStops(s: string, x: string)
    requires forall k :: 0 <= k < |s| ==> IsDigit(s[k])
    requires x == "" || !IsDigit(x[0])
    ensures DigitRun(s + x) == |s|
    decreases |s|
  {
    if s == "" {
      assert s + x == x;
    } else {
      assert (s + x)[1..] == s[1..] + x;
      DigitRunStops(s[1..], x);
    }
  }

  lemma WidthReads(side: Side, width: nat, x: string)
    requires width < 18446744073709551616 && (x == "" || !IsDigit(x[0]))
    ensures WidthSpec(Digits(width) + x, side) ==
            var truncate := x != "" && x[0] == '!';
            (PadInfo(if width < 64 then width else 64, side, truncate, true), if truncate then x[1..] else x)
  {
    var d, t := Digits(width), Digits(width) + x;
    DigitsAreRead(width);
    DigitsNotEmpty(width);
    WidthIsValueModulo(d);
    DigitRunStops(d, x);
    SmallModulo(width);
    hide Digits, Width, DigitRun, WidthSpec, Value;
    assert t[..|d|] == d && t[|d|..] == x;
    if x != "" {
      assert t[|d|] == x[0] && t[|d| + 1..] == x[1..];
    }
    WidthSpecIs(t, side);
  }

  lemma SmallModulo(n: nat)
    requires n < 18446744073709551616
    ensures n % SIZE_VALUES == n
  {
  }

  lemma WidthSpecIs(t: string, side: Side)
    requires t != "" && IsDigit(t[0])
    ensures var n := DigitRun(t);
            var truncate := n < |t| && t[n] == '!';
            WidthSpec(t, side) ==
            (PadInfo(AtMost(Width(t[..n]), MAX_WIDTH), side, truncate, true), if truncate then t[n + 1..] else t[n..])
  {
  }

  lemma DigitsNotEmpty(n: nat)
    ensures Digits(n) != ""
  {
  }

  /** A written pad spec is read as it was meant, widths above 64 as 64. */
  lemma PadSpecRoundTrip(side: Side, width: nat, truncate: bool, rest: string)
    requires width < 18446744073709551616 && rest != ""
    requires truncate || (!IsDigit(rest[0]) && rest[0] != '!')
    ensures PadSpec(PadText(side, width, truncate) + rest) ==
            (PadInfo(if width < 64 then width else 64, side, truncate, true), rest)
  {
    var s := PadText(side, width, truncate) + rest;
    var x := (if truncate then "!" else "") + rest;
    WidthReads(side, width, x);
    SideReads(side, width, truncate, rest);
    hide Digits, WidthSpec, SideOf, AfterSide;
    assert truncate ==> x[1..] == rest;
    assert !truncate ==> x == rest;
  }

  /** A side without a width is read and dropped. */
  lemma SideWithoutWidth(rest: string)
    requires rest != "" && !IsDigit(rest[0])
    ensures PadSpec("-" + rest) == PadSpec("=" + rest) == (NO_PADDING, rest)
    ensures rest[0] != '-' && rest[0] != '=' ==> PadSpec(rest) == (NO_PADDING, rest)
  {
    assert ("-" + rest)[1..] == rest && ("=" + rest)[1..] == rest;
  }

  lemma SideReads(side: Side, width: nat, truncate: bool, rest: string)
    ensures var s := PadText(side, width, truncate) + rest;
            SideOf(s) == side && AfterSide(s) == Digits(width) + ((if truncate then "!" else "") + rest)
  {
    DigitsAreRead(width);
    DigitsNotEmpty(width);
    hide Digits;
    var s, x := PadText(side, width, truncate) + rest, (if truncate then "!" else "") + rest;
    match side {
      case Left => assert s == Digits(width) + x && IsDigit(s[0]);
      case Right => assert s == ['-'] + (Digits(width) + x);
      case Center => assert s == ['='] + (Digits(width) + x);
    }
  }

  lemma PaddedDirective(side: Side, width: nat, truncate: bool, flag: char)
    requires width < 18446744073709551616 && (truncate || (!IsDigit(flag) && flag != '!'))
    ensures Tokens("%" + (PadText(side, width, truncate) + [flag])) ==
            [Directive(PadInfo(if width < 64 then width else 64, side, truncate, true), flag)]
  {
    var spec := PadText(side, width, truncate) + [flag];
    PadSpecRoundTrip(side, width, truncate, [flag]);
    hide PadText, PadSpec;
    assert ("%" + spec)[1..] == spec;
    LastDirective("%" + spec, spec, flag);
  }

  lemma FieldRenders(env: Env, flag: char, pad: PadInfo, out: Output)
    ensures RenderAll(env, [Field(flag, pad)], out) == RenderField(env.field(flag), pad, out)
  {
    OneFormatter(env, Field(flag, pad), out);
  }

  lemma PaddedRenders(text: string, pad: PadInfo, t: string, start: nat, end: nat)
    requires pad.enabled
    ensures RenderField(Written(text, |text|), pad, Output(t, start, end)) == Output(t + Fitted(text, pad), start, end)
  {
    TrueLengthFits(t, text, pad);
  }

  /** A padded field prints its text fitted: filled up on the side asked for, and cut if and only if it is to be. */
  lemma PaddedFieldPrints(env: Env, side: Side, width: nat, truncate: bool, flag: char, custom: set<char>,
                          text: string, t: string, start: nat, end: nat)
    returns (fitted: string)
    requires width < 18446744073709551616 && flag in FIELDS && flag !in custom && (flag == '!' ==> truncate)
    requires env.field(flag) == Written(text, |text|)
    ensures IsFitted(text, PadInfo(if width < 64 then width else 64, side, truncate, true), fitted)
    ensures RenderAll(env, Compile("%" + (PadText(side, width, truncate) + [flag]), custom), Output(t, start, end)) ==
            Output(t + fitted, start, end)
  {
    var pad := PadInfo(if width < 64 then width else 64, side, truncate, true);
    var p := "%" + (PadText(side, width, truncate) + [flag]);
    hide *;
    fitted := Fitted(text, pad);
    FittedIsFitted(text, pad);
    FieldHandled(flag, pad, custom);
    PaddedDirective(side, width, truncate, flag);
    OneDirective(env, p, pad, flag, custom, Output(t, start, end));
    FieldRenders(env, flag, pad, Output(t, start, end));
    PaddedRenders(text, pad, t, start, end);
  }

  /** An unknown flag after a truncating pad spec: the `!` was meant as the function name, which is padded and not
      truncated, and the flag prints itself. */
  lemma TruncatingUnknownPrints(env: Env, side: Side, width: nat, flag: char, custom: set<char>, text: string,
                                t: string, start: nat, end: nat)
    returns (fitted: string)
    requires width < 18446744073709551616 && flag !in TAKEN && flag !in custom
    requires env.field('!') == Written(text, |text|)
    ensures IsFitted(text, PadInfo(if width < 64 then width else 64, side, false, true), fitted)
    ensures RenderAll(env, Compile("%" + (PadText(side, width, true) + [flag]), custom), Output(t, start, end)) ==
            Output(t + fitted + [flag], start, end)
  {
    var pad := PadInfo(if width < 64 then width else 64, side, true, true);
    var whole := pad.(truncate := false);
    var p := "%" + (PadText(side, width, true) + [flag]);
    fitted := Fitted(text, whole);
    FittedIsFitted(text, whole);
    NotTaken(flag);
    assert HandleFlag(flag, pad, custom) == [Field('!', whole)] + [Chars([flag])];
    PaddedDirective(side, width, true, flag);
    hide PadText, Fitted, IsFitted, HandleFlag, Compile, Tokens, RenderAll;
    OneDirective(env, p, pad, flag, custom, Output(t, start, end));
    RenderAllAppend(env, [Field('!', whole)], [Chars([flag])], Output(t, start, end));
    FieldRenders(env, '!', whole, Output(t, start, end));
    PaddedRenders(text, whole, t, start, end);
    OneFormatter(env, Chars([flag]), Output(t + fitted, start, end));
  }

  // ----- patterns of texts and fields -----

  datatype Piece = Text(text: string) | FieldOf(flag: char)

  function PatternOf(pieces: seq<Piece>): string
    decreases |pieces|
  {
    if pieces == [] then ""
    else (match pieces[0] case Text(text) => text case FieldOf(flag) => "%" + [flag]) + PatternOf(pieces[1..])
  }

  /** The texts of the pieces, one after the other. */
  function TextOf(env: Env, pieces: seq<Piece>): string
    decreases |pieces|
  {
    if pieces == [] then ""
    else (match pieces[0] case Text(text) => text case FieldOf(flag) => Shown(env.field(flag)))
         + TextOf(env, pieces[1..])
  }

  ghost predicate Printable(piece: Piece, custom: set<char>) {
    match piece
    case Text(text) => '%' !in text
    case FieldOf(flag) => flag in FIELDS && flag !in custom
  }

  lemma {:induction false} RawPrints(env: Env, s: string, custom: set<char>, t: string, start: nat, end: nat)
    requires '%' !in s
    ensures Complete(s) && RenderTokens(env, Tokens(s), custom, Output(t, start, end)) == Output(t + s, start, end)
    decreases |s|
  {
    if s == "" {
      assert t + s == t;
    } else {
      RawToken(s[0], s[1..]);
      assert [s[0]] + s[1..] == s;
      RawPrints(env, s[1..], custom, t + [s[0]], start, end);
      assert Tokens(s)[1..] == Tokens(s[1..]);
      assert (t + [s[0]]) + s[1..] == t + s;
    }
  }

  lemma PiecePrints(env: Env, piece: Piece, custom: set<char>, t: string, start: nat, end: nat)
    requires Printable(piece, custom)
    ensures var p := match piece case Text(text) => text case FieldOf(flag) => "%" + [flag];
            var text := match piece case Text(text) => text case FieldOf(flag) => Shown(env.field(flag));
            Complete(p) && RenderAll(env, Compile(p, custom), Output(t, start, end)) == Output(t + text, start, end)
  {
    match piece {
      case Text(text) =>
        RawPrints(env, text, custom, t, start, end);
        CompileRenders(env, text, custom, Output(t, start, end));
      case FieldOf(flag) =>
        FieldPrints(env, flag, custom, t, start, end);
        FieldHandled(flag, NO_PADDING, custom);
        FlagHasNoPadding(flag);
    }
  }

  /** A pattern of texts and fields prints the texts and the fields, in order. */
  lemma {:induction false} PiecesPrint(env: Env, pieces: seq<Piece>, custom: set<char>, t: string, start: nat, end: nat)
    requires forall k :: 0 <= k < |pieces| ==> Printable(pieces[k], custom)
    ensures RenderAll(env, Compile(PatternOf(pieces), custom), Output(t, start, end)) ==
            Output(t + TextOf(env, pieces), start, end)
    decreases |pieces|
  {
    if pieces == [] {
      assert t + "" == t && Tokens("") == [];
      assert Compile("", custom) == [];
    } else {
      var p := match pieces[0] case Text(text) => text case FieldOf(flag) => "%" + [flag];
      var text := match pieces[0] case Text(text) => text case FieldOf(flag) => Shown(env.field(flag));
      var rest := PatternOf(pieces[1..]);
      PiecePrints(env, pieces[0], custom, t, start, end);
      CompilationIsCompositional(env, p, rest, custom, Output(t, start, end));
      PiecesPrint(env, pieces[1..], custom, t + text, start, end);
      ConcatAssociates(t, text, TextOf(env, pieces[1..]));
    }
  }

  lemma PatternFirst(piece: Piece, rest: seq<Piece>)
    ensures PatternOf([piece] + rest) ==
            (match piece case Text(text) => text case FieldOf(flag) => "%" + [flag]) + PatternOf(rest)
  {
    assert ([piece] + rest)[1..] == rest;
  }

  /** Date, time, and what follows them in the proxy's own pattern. */
  const PROXY_DATE: seq<Piece> :=
    [Text("["), FieldOf('Y'), Text("-"), FieldOf('m'), Text("-"), FieldOf('d'), Text(" ")]
  const PROXY_TIME: seq<Piece> :=
    [FieldOf('H'), Text(":"), FieldOf('M'), Text(":"), FieldOf('S'), Text("."), FieldOf('e')]
  const PROXY_REST: seq<Piece> :=
    [Text("]["), FieldOf('t'), Text("]["), FieldOf('l'), Text("] "), FieldOf('v')]

  lemma {:induction false} PatternAppend(a: seq<Piece>, b: seq<Piece>)
    ensures PatternOf(a + b) == PatternOf(a) + PatternOf(b)
    decreases |a|
  {
    if a == [] {
      assert a + b == b;
    } else {
      assert (a + b)[1..] == a[1..] + b;
      PatternAppend(a[1..], b);
    }
  }

  lemma ProxyDateString()
    ensures "[" + (("%" + ['Y']) + ("-" + (("%" + ['m']) + ("-" + (("%" + ['d']) + (" " + "")))))) ==
            "[%Y-%m-%d "
  {
  }

  lemma ProxyDate()
    ensures PatternOf(PROXY_DATE) == "[%Y-%m-%d "
  {
    PatternFirst(Text(" "), []);
    PatternFirst(FieldOf('d'), [Text(" ")]);
    PatternFirst(Text("-"), [FieldOf('d'), Text(" ")]);
    PatternFirst(FieldOf('m'), [Text("-"), FieldOf('d'), Text(" ")]);
    PatternFirst(Text("-"), [FieldOf('m'), Text("-"), FieldOf('d'), Text(" ")]);
    PatternFirst(FieldOf('Y'), [Text("-"), FieldOf('m'), Text("-"), FieldOf('d'), Text(" ")]);
    PatternFirst(Text("["), [FieldOf('Y'), Text("-"), FieldOf('m'), Text("-"), FieldOf('d'), Text(" ")]);
    ProxyDateString();
  }

  lemma ProxyTimeString()
    ensures ("%" + ['H']) + (":" + (("%" + ['M']) + (":" + (("%" + ['S'])
            + ("." + (("%" + ['e']) + "")))))) ==
            "%H:%M:%S.%e"
  {
  }

  lemma ProxyTime()
    ensures PatternOf(PROXY_TIME) == "%H:%M:%S.%e"
  {
    PatternFirst(FieldOf('e'), []);
    PatternFirst(Text("."), [FieldOf('e')]);
    PatternFirst(FieldOf('S'), [Text("."), FieldOf('e')]);
    PatternFirst(Text(":"), [FieldOf('S'), Text("."), FieldOf('e')]);
    PatternFirst(FieldOf('M'), [Text(":"), FieldOf('S'), Text("."), FieldOf('e')]);
    PatternFirst(Text(":"), [FieldOf('M'), Text(":"), FieldOf('S'), Text("."), FieldOf('e')]);
    PatternFirst(FieldOf('H'), [Text(":"), FieldOf('M'), Text(":"), FieldOf('S'), Text("."), FieldOf('e')]);
    ProxyTimeString();
  }

  lemma ProxyRestString()
    ensures "][" + (("%" + ['t']) + ("][" + (("%" + ['l']) + ("] " + (("%" + ['v']) + ""))))) ==
            "][%t][%l] %v"
  {
  }

  lemma ProxyRest()
    ensures PatternOf(PROXY_REST) == "][%t][%l] %v"
  {
    PatternFirst(FieldOf('v'), []);
    PatternFirst(Text("] "), [FieldOf('v')]);
    PatternFirst(FieldOf('l'), [Text("] "), FieldOf('v')]);
    PatternFirst(Text("]["), [FieldOf('l'), Text("] "), FieldOf('v')]);
    PatternFirst(FieldOf('t'), [Text("]["), FieldOf('l'), Text("] "), FieldOf('v')]);
    PatternFirst(Text("]["), [FieldOf('t'), Text("]["), FieldOf('l'), Text("] "), FieldOf('v')]);
    ProxyRestString();
  }

  /** The pattern of the proxy's log prints the date and time, the thread, the level and the message. */
  lemma ProxyPatternPrints(env: Env, t: string, start: nat, end: nat)
    ensures var p := "[%Y-%m-%d %H:%M:%S.%e][%t][%l] %v";
            RenderAll(env, Compile(p, {}), Output(t, start, end)) ==
            Output(t + TextOf(env, PROXY_DATE + PROXY_TIME + PROXY_REST), start, end)
  {
    var pieces := PROXY_DATE + PROXY_TIME + PROXY_REST;
    ProxyPieces();
    ProxyString();
    hide *;
    ProxyDate();
    ProxyTime();
    ProxyRest();
    PatternAppend(PROXY_DATE, PROXY_TIME);
    PatternAppend(PROXY_DATE + PROXY_TIME, PROXY_REST);
    PiecesPrint(env, pieces, {}, t, start, end);
  }

  lemma ProxyString()
    ensures "[%Y-%m-%d " + "%H:%M:%S.%e" + "][%t][%l] %v" == "[%Y-%m-%d %H:%M:%S.%e][%t][%l] %v"
  {
  }

  lemma ProxyPieces()
    ensures var pieces := PROXY_DATE + PROXY_TIME + PROXY_REST;
            forall k :: 0 <= k < |pieces| ==> Printable(pieces[k], {})
  {
    assert forall k :: 0 <= k < |PROXY_DATE| ==> Printable(PROXY_DATE[k], {});
    assert forall k :: 0 <= k < |PROXY_TIME| ==> Printable(PROXY_TIME[k], {});
    assert forall k :: 0 <= k < |PROXY_REST| ==> Printable(PROXY_REST[k], {});
  }
}
