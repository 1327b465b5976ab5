/** The pattern language of include/spdlog/pattern_formatter-inl.h: what a pattern means, and the compiler that
    turns it into a list of formatters. */
module PatternCompiler {
  import opened Arithmetic
  import opened Decimal
  import opened Padding
  import opened SeqFacts

  // ----- the pad spec -----

  predicate IsDigit(c: char) {
    '0' <= c <= '9'
  }

  function DigitValue(c: char): nat
    requires IsDigit(c)
  {
    c as int - '0' as int
  }

  function DigitRun(s: string): (n: nat)
    ensures n <= |s| && (forall k :: 0 <= k < n ==> IsDigit(s[k])) && (n < |s| ==> !IsDigit(s[n]))
  {
    if s == "" || !IsDigit(s[0]) then 0 else 1 + DigitRun(s[1..])
  }

  /** The number the digits stand for. */
  ghost function Value(digits: string): nat
    requires forall k :: 0 <= k < |digits| ==> IsDigit(digits[k])
  {
    if digits == "" then 0 else 10 * Value(digits[..|digits| - 1]) + DigitValue(digits[|digits| - 1])
  }

  /** The number the scanner arrives at, in size_t arithmetic. */
  function Width(digits: string): nat
    requires forall k :: 0 <= k < |digits| ==> IsDigit(digits[k])
  {
    if digits == "" then 0
    else (10 * Width(digits[..|digits| - 1]) + DigitValue(digits[|digits| - 1])) % SIZE_VALUES
  }

  function SideOf(s: string): Side {
    if s != "" && s[0] == '-' then Right else if s != "" && s[0] == '=' then Center else Left
  }

  function AfterSide(s: string): string {
    if SideOf(s).Left? then s else s[1..]
  }

  /** The width and the truncation mark, if there is a width. */
  function WidthSpec(t: string, side: Side): (r: (PadInfo, string))
    ensures r.0.width <= MAX_WIDTH
    ensures |r.1| <= |t|
  {
    if t == "" || !IsDigit(t[0]) then (NO_PADDING, t)
    else
      var n := DigitRun(t);
      var truncate := n < |t| && t[n] == '!';
      (PadInfo(AtMost(Width(t[..n]), MAX_WIDTH), side, truncate, true), if truncate then t[n + 1..] else t[n..])
  }

  /** The padding at the start of `s`, and what follows it. */
  function PadSpec(s: string): (r: (PadInfo, string))
    ensures r.0.width <= MAX_WIDTH
    ensures |r.1| <= |s|
  {
    WidthSpec(AfterSide(s), SideOf(s))
  }

  /** What follows a pad spec is the end of the text it is read from. */
  lemma PadSpecLeavesSuffix(s: string)
    ensures var rest := PadSpec(s).1; rest == s[|s| - |rest|..]
  {
    var t := AfterSide(s);
    if t != "" && IsDigit(t[0]) {
      var n := DigitRun(t);
      assert WidthSpec(t, SideOf(s)).1 == if n < |t| && t[n] == '!' then t[n + 1..] else t[n..];
    }
  }

  lemma {:induction false} WidthIsValueModulo(digits: string)
    requires forall k :: 0 <= k < |digits| ==> IsDigit(digits[k])
    ensures Width(digits) == Value(digits) % SIZE_VALUES
  {
    if digits == "" {
    } else {
      var front := digits[..|digits| - 1];
      WidthIsValueModulo(front);
      ModuloOfStep(Value(front), 10, DigitValue(digits[|digits| - 1]), SIZE_VALUES);
    }
  }

  /** The width is the number written, but no more than 64, if and only if the number fits size_t or wraps round to
      something that is at least 64 again. */
  lemma WidthIsClamped(digits: string)
    requires forall k :: 0 <= k < |digits| ==> IsDigit(digits[k])
    ensures AtMost(Width(digits), MAX_WIDTH) == AtMost(Value(digits), 64)
       <==> Value(digits) < 18446744073709551616 || Value(digits) % 18446744073709551616 >= 64
  {
    WidthIsValueModulo(digits);
    hide Width, Value;
    ClampModulo(Value(digits));
  }

  lemma ClampModulo(v: nat)
    ensures AtMost(v % SIZE_VALUES, 64) == AtMost(v, 64)
       <==> v < 18446744073709551616 || v % 18446744073709551616 >= 64
  {
    if v < SIZE_VALUES {
      assert v % SIZE_VALUES == v;
    }
  }

  lemma {:induction false} DigitsAreRead(n: nat)
    ensures forall k :: 0 <= k < |Digits(n)| ==> IsDigit(Digits(n)[k])
    ensures Value(Digits(n)) == n
  {
    if n < 10 {
      assert Digits(n)[..0] == "";
    } else {
      DigitsAreRead(n / 10);
      var front, s := Digits(n / 10), Digits(n);
      assert s[..|s| - 1] == front && forall k :: 0 <= k < |front| ==> s[k] == front[k];
    }
  }

  /** Two more than the greatest size_t is read as a width of 1. */
  lemma WideIsReadNarrow()
    ensures var digits := Digits(SIZE_VALUES + 1);
            && (forall k :: 0 <= k < |digits| ==> IsDigit(digits[k]))
            && Value(digits) == 18446744073709551617 && Width(digits) == 1
  {
    DigitsAreRead(SIZE_VALUES + 1);
    hide Digits, Value, Width;
    WidthIsValueModulo(Digits(SIZE_VALUES + 1));
  }

  // ----- the meaning of a pattern -----

  datatype Token = Raw(ch: char) | Directive(pad: PadInfo, flag: char)

  /** Directives and the characters between them; a directive cut off by the end of the pattern is none. */
  function Tokens(p: string): seq<Token>
    decreases |p|
  {
    if p == "" then []
    else if p[0] != '%' then [Raw(p[0])] + Tokens(p[1..])
    else
      var (pad, rest) := PadSpec(p[1..]);
      if rest == "" then [] else [Directive(pad, rest[0])] + Tokens(rest[1..])
  }

  /** The pattern does not end inside a directive. */
  predicate Complete(p: string)
    decreases |p|
  {
    if p == "" then true
    else if p[0] != '%' then Complete(p[1..])
    else
      var rest := PadSpec(p[1..]).1;
      rest != "" && Complete(rest[1..])
  }

  lemma {:induction false} DigitRunAppend(s: string, q: string)
    requires DigitRun(s) < |s|
    ensures DigitRun(s + q) == DigitRun(s)
  {
    if s == "" || !IsDigit(s[0]) {
    } else {
      assert (s + q)[1..] == s[1..] + q;
      DigitRunAppend(s[1..], q);
    }
  }

  lemma WidthSpecAppend(t: string, side: Side, q: string)
    requires WidthSpec(t, side).1 != ""
    ensures WidthSpec(t + q, side) == (WidthSpec(t, side).0, WidthSpec(t, side).1 + q)
  {
    if IsDigit(t[0]) {
      var n := DigitRun(t);
      DigitRunAppend(t, q);
      DropAppends(t, n, q);
      DropAppends(t, n + 1, q);
    }
  }

  lemma SideAppend(s: string, q: string)
    requires s != ""
    ensures SideOf(s + q) == SideOf(s) && AfterSide(s + q) == AfterSide(s) + q
  {
    DropAppends(s, 1, q);
  }

  /** A pad spec followed by a character is read without looking past that character. */
  lemma PadSpecAppend(s: string, q: string)
    requires PadSpec(s).1 != ""
    ensures PadSpec(s + q) == (PadSpec(s).0, PadSpec(s).1 + q)
  {
    SideAppend(s, q);
    WidthSpecAppend(AfterSide(s), SideOf(s), q);
  }

  /** The first token does not depend on what follows it. */
  lemma FirstTokenAppend(p: string, q: string)
    requires p != "" && (p[0] == '%' ==> PadSpec(p[1..]).1 != "")
    ensures var rest := if p[0] == '%' then PadSpec(p[1..]).1[1..] else p[1..];
            && |rest| < |p|
            && Tokens(p) == [Tokens(p)[0]] + Tokens(rest)
            && Tokens(p + q) == [Tokens(p)[0]] + Tokens(rest + q)
  {
    DropAppends(p, 1, q);
    if p[0] == '%' {
      PadSpecAppend(p[1..], q);
      DropAppends(PadSpec(p[1..]).1, 1, q);
    }
  }

  /** A complete pattern keeps its meaning whatever follows. */
  lemma {:induction false} TokensAppend(p: string, q: string)
    requires Complete(p)
    ensures Tokens(p + q) == Tokens(p) + Tokens(q)
    decreases |p|
  {
    if p == "" {
      assert p + q == q;
    } else {
      var rest := if p[0] == '%' then PadSpec(p[1..]).1[1..] else p[1..];
      FirstTokenAppend(p, q);
      TokensAppend(rest, q);
      ConcatAssociates([Tokens(p)[0]], Tokens(rest), Tokens(q));
    }
  }

  lemma {:induction false} DigitsThenPercent(t: string, n: nat)
    requires n == DigitRun(t)
    ensures DigitRun(t + "%") == n
  {
    if n == 0 {
    } else {
      assert (t + "%")[1..] == t[1..] + "%";
      DigitsThenPercent(t[1..], n - 1);
    }
  }

  lemma WidthSpecTakesPercent(t: string, side: Side)
    requires WidthSpec(t, side).1 == ""
    ensures WidthSpec(t + "%", side).1 == "%"
  {
    if t == "" {
      assert t + "%" == "%";
    } else {
      var n := DigitRun(t);
      DigitsThenPercent(t, n);
      assert (t + "%")[n..] == t[n..] + "%" && (t + "%")[|t|..] == "%";
    }
  }

  lemma PadSpecTakesPercent(s: string)
    requires PadSpec(s).1 == ""
    ensures PadSpec(s + "%").1 == "%"
  {
    if s == "" {
      PercentHasNoPadding("");
      assert s + "%" == ['%'] + "" == "%";
    } else {
      SideAppend(s, "%");
      WidthSpecTakesPercent(AfterSide(s), SideOf(s));
    }
  }

  lemma LastDirective(p: string, rest: string, flag: char)
    requires p != "" && p[0] == '%' && p[1..] == rest && PadSpec(rest).1 == [flag]
    ensures Tokens(p) == [Directive(PadSpec(rest).0, flag)]
  {
    assert [flag][1..] == "";
    assert Tokens("") == [];
  }

  lemma CutOffTakesPercent(p: string)
    requires p != "" && p[0] == '%' && PadSpec(p[1..]).1 == ""
    ensures Tokens(p) == [] && Tokens(p + "%") == [Directive(PadSpec(p[1..] + "%").0, '%')]
  {
    PadSpecTakesPercent(p[1..]);
    DropAppends(p, 1, "%");
    LastDirective(p + "%", p[1..] + "%", '%');
  }

  /** Only a complete pattern keeps its meaning whatever follows: one that is cut off inside a directive takes a
      following % for the end of it. */
  lemma {:induction false} IncompleteTakesPercent(p: string) returns (pad: PadInfo)
    requires !Complete(p)
    ensures Tokens(p + "%") == Tokens(p) + [Directive(pad, '%')]
    decreases |p|
  {
    if p[0] == '%' && PadSpec(p[1..]).1 == "" {
      CutOffTakesPercent(p);
      pad := PadSpec(p[1..] + "%").0;
    } else {
      var rest := if p[0] == '%' then PadSpec(p[1..]).1[1..] else p[1..];
      FirstTokenAppend(p, "%");
      pad := IncompleteTakesPercent(rest);
      ConcatAssociates([Tokens(p)[0]], Tokens(rest), [Directive(pad, '%')]);
    }
  }

  // ----- formatters -----

  /** When the time shown by an elapsed-time field began. */
  datatype Since = FromStart | FromMessage(time: int)

  /** The formatters of a compiled pattern. A field is padded when its padding is enabled. The full formatter keeps
      the date text of the last message it printed, and an elapsed-time field keeps the time of that message. */
  datatype Formatter =
    | Chars(text: string)
    | Ch(ch: char)
    | Full(stamp: int, cached: string)
    | ColorStart
    | ColorStop
    | Field(flag: char, pad: PadInfo)
    | Elapsed(flag: char, pad: PadInfo, since: Since)
    | Custom(flag: char, pad: PadInfo)

  const FUNCNAME := '!'

  /** The flags of padded fields. */
  predicate IsFieldFlag(flag: char) {
    match flag
    case 'n' | 'l' | 'L' | 't' | 'v' | 'a' | 'A' | 'b' | 'h' | 'B' | 'c' | 'C' | 'Y' | 'D' => true
    case 'x' | 'm' | 'd' | 'H' | 'I' | 'M' | 'S' | 'e' | 'f' | 'F' | 'E' | 'p' | 'r' | 'R' => true
    case 'T' | 'X' | 'z' | 'P' | '@' | 's' | 'g' | '#' | '!' => true
    case _ => false
  }

  /** The flags of the time since the last message, in four units. */
  predicate IsElapsedFlag(flag: char) {
    flag == 'u' || flag == 'i' || flag == 'o' || flag == 'O'
  }

  /** The formatters of one directive. An unknown flag after a truncating pad spec is read as the function name
      without truncation, followed by the flag itself. */
  function HandleFlag(flag: char, pad: PadInfo, custom: set<char>): seq<Formatter> {
    if flag in custom then [Custom(flag, pad)]
    else if flag == '+' then [Full(0, "")]
    else if flag == '^' then [ColorStart]
    else if flag == '$' then [ColorStop]
    else if flag == '%' then [Ch('%')]
    else if IsFieldFlag(flag) then [Field(flag, pad)]
    else if IsElapsedFlag(flag) then [Elapsed(flag, pad, FromStart)]
    else if !pad.truncate then [Chars(['%', flag])]
    else [Field(FUNCNAME, pad.(truncate := false)), Chars([flag])]
  }

  function Flush(pending: string): seq<Formatter> {
    if pending == "" then [] else [Chars(pending)]
  }

  /** Runs of raw characters become one formatter each. */
  function Group(tokens: seq<Token>, pending: string, custom: set<char>): seq<Formatter>
    decreases |tokens|
  {
    if tokens == [] then Flush(pending)
    else match tokens[0]
      case Raw(ch) => Group(tokens[1..], pending + [ch], custom)
      case Directive(pad, flag) =>
        Flush(pending) + (HandleFlag(flag, pad, custom) + Group(tokens[1..], "", custom))
  }

  function Compile(p: string, custom: set<char>): seq<Formatter> {
    Group(Tokens(p), "", custom)
  }

  // ----- rendering -----

  /** What a field writes: nothing, as when the source location is missing, or a text of a declared length. */
  datatype FieldText = Nothing | Written(text: string, declared: nat)

  /** The output so far, with the colour range marked in it, or the failure of a truncation. */
  datatype Output = Output(text: string, colorStart: nat, colorEnd: nat) | Failed

  /** One message on its way out: the texts of its fields, the date and the rest of the full format, and the
      user's own formatters, which may do anything to the output. */
  datatype Env = Env(
    field: char -> FieldText,
    elapsed: char -> string,
    date: string,
    afterDate: string,
    level: string,
    afterLevel: string,
    custom: (char, PadInfo, Output) -> Output)

  function Add(out: Output, text: string): Output {
    if out.Failed? then out else out.(text := out.text + text)
  }

  function RenderField(field: FieldText, pad: PadInfo, out: Output): Output {
    match field
    case Nothing => out
    case Written(text, declared) =>
      if out.Failed? then out
      else if !pad.enabled then Add(out, text)
      else match Append(out.text, text, declared, pad)
           case Buf(t) => out.(text := t)
           case Underflow => Failed
  }

  function RenderFull(env: Env, date: string, out: Output): Output {
    if out.Failed? then out
    else
      var upToLevel := out.text + date + env.afterDate;
      var withLevel := upToLevel + env.level;
      Output(withLevel + env.afterLevel, |upToLevel|, |withLevel|)
  }

  /** What one formatter appends; the full formatter prints the date text afresh, and an elapsed-time field the time
      since the message before, whatever they keep. */
  function Render(env: Env, f: Formatter, out: Output): Output {
    match f
    case Chars(text) => Add(out, text)
    case Ch(ch) => Add(out, [ch])
    case Full(_, _) => RenderFull(env, env.date, out)
    case ColorStart => if out.Failed? then out else out.(colorStart := |out.text|)
    case ColorStop => if out.Failed? then out else out.(colorEnd := |out.text|)
    case Field(flag, pad) => RenderField(env.field(flag), pad, out)
    case Elapsed(flag, pad, _) => RenderField(Written(env.elapsed(flag), |env.elapsed(flag)|), pad, out)
    case Custom(flag, pad) => if out.Failed? then out else env.custom(flag, pad, out)
  }

  function RenderAll(env: Env, fs: seq<Formatter>, out: Output): Output
    decreases |fs|
  {
    if fs == [] then out else RenderAll(env, fs[1..], Render(env, fs[0], out))
  }

  /** The meaning of a pattern without the grouping of characters. */
  ghost function RenderTokens(env: Env, tokens: seq<Token>, custom: set<char>, out: Output): Output
    decreases |tokens|
  {
    if tokens == [] then out
    else match tokens[0]
      case Raw(ch) => RenderTokens(env, tokens[1..], custom, Add(out, [ch]))
      case Directive(pad, flag) =>
        RenderTokens(env, tokens[1..], custom, RenderAll(env, HandleFlag(flag, pad, custom), out))
  }

  lemma {:induction false} RenderAllAppend(env: Env, fs: seq<Formatter>, gs: seq<Formatter>, out: Output)
    ensures RenderAll(env, fs + gs, out) == RenderAll(env, gs, RenderAll(env, fs, out))
    decreases |fs|
  {
    if fs == [] {
      assert fs + gs == gs;
    } else {
      assert (fs + gs)[1..] == fs[1..] + gs;
      RenderAllAppend(env, fs[1..], gs, Render(env, fs[0], out));
    }
  }

  lemma {:induction false} RenderTokensAppend(env: Env, a: seq<Token>, b: seq<Token>, custom: set<char>, out: Output)
    ensures RenderTokens(env, a + b, custom, out) == RenderTokens(env, b, custom, RenderTokens(env, a, custom, out))
    decreases |a|
  {
    if a == [] {
      assert a + b == b;
    } else {
      assert (a + b)[1..] == a[1..] + b;
      match a[0] {
        case Raw(ch) => RenderTokensAppend(env, a[1..], b, custom, Add(out, [ch]));
        case Directive(pad, flag) =>
          RenderTokensAppend(env, a[1..], b, custom, RenderAll(env, HandleFlag(flag, pad, custom), out));
      }
    }
  }

  lemma FlushRenders(env: Env, pending: string, out: Output)
    ensures RenderAll(env, Flush(pending), out) == Add(out, pending)
  {
    if pending == "" {
      if out.Output? {
        assert out.text + "" == out.text;
      }
    } else {
      var fs := Flush(pending);
      assert fs[1..] == [];
      assert RenderAll(env, fs, out) == RenderAll(env, [], Add(out, pending));
    }
  }

  lemma AddAppends(out: Output, a: string, b: string)
    ensures Add(Add(out, a), b) == Add(out, a + b)
  {
    if out.Output? {
      assert (out.text + a) + b == out.text + (a + b);
    }
  }

  /** Grouping the characters changes nothing. */
  lemma {:induction false} GroupRenders(env: Env, tokens: seq<Token>, pending: string, custom: set<char>, out: Output)
    ensures RenderAll(env, Group(tokens, pending, custom), out) == RenderTokens(env, tokens, custom, Add(out, pending))
    decreases |tokens|
  {
    if tokens == [] {
      FlushRenders(env, pending, out);
    } else {
      match tokens[0] {
        case Raw(ch) =>
          AddAppends(out, pending, [ch]);
          GroupRenders(env, tokens[1..], pending + [ch], custom, out);
        case Directive(pad, flag) =>
          var handled, later := HandleFlag(flag, pad, custom), Group(tokens[1..], "", custom);
          var flushed := Add(out, pending);
          var next := RenderAll(env, handled, flushed);
          FlushRenders(env, pending, out);
          RenderAllAppend(env, Flush(pending), handled + later, out);
          RenderAllAppend(env, handled, later, flushed);
          GroupRenders(env, tokens[1..], "", custom, next);
          AddNothing(next);
      }
    }
  }

  lemma AddNothing(out: Output)
    ensures Add(out, "") == out
  {
    if out.Output? {
      assert out.text + "" == out.text;
    }
  }

  lemma CompileRenders(env: Env, p: string, custom: set<char>, out: Output)
    ensures RenderAll(env, Compile(p, custom), out) == RenderTokens(env, Tokens(p), custom, out)
  {
    GroupRenders(env, Tokens(p), "", custom, out);
    AddNothing(out);
  }

  /** Compilation is compositional: a complete pattern and another one, compiled together, print what they print one
      after the other, whatever the message, the user's formatters and the output before. */
  lemma CompilationIsCompositional(env: Env, p: string, q: string, custom: set<char>, out: Output)
    requires Complete(p)
    ensures RenderAll(env, Compile(p + q, custom), out) ==
            RenderAll(env, Compile(q, custom), RenderAll(env, Compile(p, custom), out))
  {
    TokensAppend(p, q);
    CompileRenders(env, p + q, custom, out);
    RenderTokensAppend(env, Tokens(p), Tokens(q), custom, out);
    CompileRenders(env, p, custom, out);
    CompileRenders(env, q, custom, RenderAll(env, Compile(p, custom), out));
  }

  /** Compiled together, `p` and `q` print what they print one after the other, whatever the message, the user's
      formatters and the output before. */
  ghost predicate PrintInTurn(p: string, q: string) {
    forall env: Env, custom: set<char>, out: Output ::
      RenderAll(env, Compile(p + q, custom), out) ==
      RenderAll(env, Compile(q, custom), RenderAll(env, Compile(p, custom), out))
  }

  /** A message without any field. */
  ghost function Bare(): Env {
    Env(flag => Nothing, flag => "", "", "", "", "", (flag, pad, out) => out)
  }

  lemma BareDirective(pad: PadInfo, flag: char, out: Output)
    requires out.Output?
    ensures RenderAll(Bare(), HandleFlag(flag, pad, {}), out).Output?
  {
    var fs := HandleFlag(flag, pad, {});
    var next := Render(Bare(), fs[0], out);
    assert next.Output?;
    if |fs| == 1 {
      assert fs[1..] == [];
    } else {
      assert fs[1..][1..] == [] && fs[1..][0].Chars?;
      assert RenderAll(Bare(), fs[1..], next) == RenderAll(Bare(), [], Render(Bare(), fs[1], next));
    }
  }

  lemma {:induction false} BareNeverFails(tokens: seq<Token>, out: Output)
    requires out.Output?
    ensures RenderTokens(Bare(), tokens, {}, out).Output?
    decreases |tokens|
  {
    if tokens == [] {
    } else {
      match tokens[0] {
        case Raw(ch) => BareNeverFails(tokens[1..], Add(out, [ch]));
        case Directive(pad, flag) =>
          BareDirective(pad, flag, out);
          BareNeverFails(tokens[1..], RenderAll(Bare(), HandleFlag(flag, pad, {}), out));
      }
    }
  }

  lemma PercentDirectiveRenders(pad: PadInfo, out: Output)
    ensures RenderTokens(Bare(), [Directive(pad, '%')], {}, out) == Add(out, "%")
  {
    var fs, tokens := HandleFlag('%', pad, {}), [Directive(pad, '%')];
    assert fs == [Ch('%')] && fs[1..] == [] && tokens[1..] == [];
    assert RenderAll(Bare(), fs, out) == RenderAll(Bare(), [], Add(out, "%"));
    assert RenderTokens(Bare(), tokens, {}, out) == RenderTokens(Bare(), [], {}, Add(out, "%"));
  }

  /** A pattern cut off inside a directive prints a percent sign more when one follows, although a percent sign on
      its own prints nothing. */
  lemma IncompletePrintsPercent(p: string)
    requires !Complete(p)
    ensures !PrintInTurn(p, "%")
  {
    var start := Output("", 0, 0);
    var pad := IncompleteTakesPercent(p);
    var printed := RenderTokens(Bare(), Tokens(p), {}, start);
    BareNeverFails(Tokens(p), start);
    CompileRenders(Bare(), p, {}, start);
    CompileRenders(Bare(), p + "%", {}, start);
    RenderTokensAppend(Bare(), Tokens(p), [Directive(pad, '%')], {}, start);
    PercentDirectiveRenders(pad, printed);
    assert PadSpec("%"[1..]).1 == "";
    assert Tokens("%") == [];
    assert Compile("%", {}) == [];
    assert Add(printed, "%").text != printed.text;
  }

  /** Printing is compositional for a pattern before every other one if and only if it does not end inside a
      directive. */
  lemma CompositionalExactlyIfComplete(p: string)
    ensures (forall q :: PrintInTurn(p, q)) <==> Complete(p)
  {
    if Complete(p) {
      forall q ensures PrintInTurn(p, q) {
        forall env: Env, custom: set<char>, out: Output
          ensures RenderAll(env, Compile(p + q, custom), out) ==
                  RenderAll(env, Compile(q, custom), RenderAll(env, Compile(p, custom), out))
        {
          CompilationIsCompositional(env, p, q, custom, out);
        }
      }
    } else {
      IncompletePrintsPercent(p);
    }
  }

  // ----- escaping -----

  function Escape(s: string): string {
    if s == "" then "" else (if s[0] == '%' then ['%', '%'] else [s[0]]) + Escape(s[1..])
  }

  lemma PercentHasNoPadding(rest: string)
    ensures PadSpec(['%'] + rest) == (NO_PADDING, ['%'] + rest)
  {
    var s := ['%'] + rest;
    assert s[0] == '%' && AfterSide(s) == s;
  }

  lemma EscapedPercentToken(rest: string)
    ensures Tokens(['%', '%'] + rest) == [Directive(NO_PADDING, '%')] + Tokens(rest)
  {
    var e := ['%', '%'] + rest;
    assert e[1..] == ['%'] + rest;
    PercentHasNoPadding(rest);
    assert (['%'] + rest)[1..] == rest;
  }

  lemma RawToken(ch: char, rest: string)
    requires ch != '%'
    ensures Tokens([ch] + rest) == [Raw(ch)] + Tokens(rest)
  {
    assert ([ch] + rest)[1..] == rest;
  }

  ghost function EscapedToken(ch: char): Token {
    if ch == '%' then Directive(NO_PADDING, '%') else Raw(ch)
  }

  lemma EscapedTokens(s: string)
    requires s != ""
    ensures Tokens(Escape(s)) == [EscapedToken(s[0])] + Tokens(Escape(s[1..]))
  {
    if s[0] == '%' {
      EscapedPercentToken(Escape(s[1..]));
    } else {
      RawToken(s[0], Escape(s[1..]));
    }
  }

  lemma PercentRenders(env: Env, custom: set<char>, out: Output)
    requires '%' !in custom
    ensures RenderAll(env, HandleFlag('%', NO_PADDING, custom), out) == Add(out, "%")
  {
    var fs := HandleFlag('%', NO_PADDING, custom);
    assert fs == [Ch('%')] && fs[1..] == [];
    assert RenderAll(env, fs, out) == RenderAll(env, [], Add(out, "%"));
  }

  lemma {:induction false} EscapedRenders(env: Env, s: string, custom: set<char>, out: Output)
    requires '%' !in custom
    ensures RenderTokens(env, Tokens(Escape(s)), custom, out) == Add(out, s)
    decreases |s|
  {
    if s == "" {
      AddNothing(out);
    } else {
      var tokens, rest := Tokens(Escape(s)), s[1..];
      EscapedTokens(s);
      assert tokens[1..] == Tokens(Escape(rest));
      PercentRenders(env, custom, out);
      EscapedRenders(env, rest, custom, Add(out, [s[0]]));
      AddAppends(out, [s[0]], rest);
      assert [s[0]] + rest == s;
    }
  }

  /** Every text, with its % signs doubled, is a pattern that prints just this text. */
  lemma EscapeRoundTrip(env: Env, s: string, custom: set<char>, before: string)
    requires '%' !in custom
    ensures RenderAll(env, Compile(Escape(s), custom), Output(before, 0, 0)) == Output(before + s, 0, 0)
  {
    CompileRenders(env, Escape(s), custom, Output(before, 0, 0));
    EscapedRenders(env, s, custom, Output(before, 0, 0));
  }
}
