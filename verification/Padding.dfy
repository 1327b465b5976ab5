/** The padder of include/spdlog/pattern_formatter-inl.h. */
module Padding {

  datatype Side = Left | Right | Center

  datatype PadInfo = PadInfo(width: nat, side: Side, truncate: bool, enabled: bool)

  const NO_PADDING := PadInfo(0, Left, false, false)

  /** The widest padding the parser hands out, and the number of spaces the padder has to read from. */
  const MAX_WIDTH: nat := 64

  function Spaces(n: nat): (s: string)
    ensures |s| == n && forall k :: 0 <= k < n ==> s[k] == ' '
  {
    if n == 0 then "" else Spaces(n - 1) + " "
  }

  // ----- what padding means -----

  /** `text` in a field of the given width: filled up on the side asked for, the odd space of a centred text on
      the right; cut at the end when it is too long and truncation is asked for. */
  ghost predicate IsFitted(text: string, pad: PadInfo, result: string) {
    if |text| <= pad.width then
      exists before: nat, after: nat ::
        && result == Spaces(before) + text + Spaces(after)
        && before + after == pad.width - |text|
        && match pad.side
           case Left => after == 0
           case Right => before == 0
           case Center => before <= after <= before + 1
    else result == if pad.truncate then text[..pad.width] else text
  }

  // ----- what the padder does -----

  /** Spaces before the text, spaces after it, and characters cut off at the end, for a declared length. */
  function Before(declared: nat, pad: PadInfo): nat {
    if pad.width <= declared then 0
    else match pad.side
         case Left => pad.width - declared
         case Center => (pad.width - declared) / 2
         case Right => 0
  }

  function After(declared: nat, pad: PadInfo): nat {
    if pad.width <= declared then 0
    else match pad.side
         case Left => 0
         case Center => (pad.width - declared) / 2 + (pad.width - declared) % 2
         case Right => pad.width - declared
  }

  function Cut(declared: nat, pad: PadInfo): nat {
    if pad.truncate && pad.width < declared then declared - pad.width else 0
  }

  /** The buffer, or the failure to shrink it below nothing. */
  datatype Out = Buf(text: string) | Underflow

  function Append(dest: string, text: string, declared: nat, pad: PadInfo): Out {
    var full := dest + (Spaces(Before(declared, pad)) + text + Spaces(After(declared, pad)));
    if Cut(declared, pad) <= |full| then Buf(full[..|full| - Cut(declared, pad)]) else Underflow
  }

  /** The text fitted to its own length. */
  function Fitted(text: string, pad: PadInfo): string {
    if |text| <= pad.width then Spaces(Before(|text|, pad)) + text + Spaces(After(|text|, pad))
    else if pad.truncate then text[..pad.width]
    else text
  }

  lemma FittedIsFitted(text: string, pad: PadInfo)
    ensures IsFitted(text, pad, Fitted(text, pad))
  {
    if |text| <= pad.width {
      var before, after := Before(|text|, pad), After(|text|, pad);
      assert Fitted(text, pad) == Spaces(before) + text + Spaces(after);
    }
  }

  lemma TrueLengthFits(dest: string, text: string, pad: PadInfo)
    ensures Append(dest, text, |text|, pad) == Buf(dest + Fitted(text, pad))
  {
    var padded := Spaces(Before(|text|, pad)) + text + Spaces(After(|text|, pad));
    var full := dest + padded;
    if |text| <= pad.width {
      assert full[..|full|] == full;
    } else {
      assert padded == text;
      if pad.truncate {
        assert full[..|full| - (|text| - pad.width)] == dest + text[..pad.width];
      } else {
        assert full[..|full|] == full;
      }
    }
  }

  /** A formatter gets its text fitted if and only if the length it declares is the true one, or declared and true
      length both fill the field and nothing is to be cut. */
  lemma PaddingLaw(dest: string, text: string, declared: nat, pad: PadInfo)
    ensures Append(dest, text, declared, pad) == Buf(dest + Fitted(text, pad))
       <==> declared == |text| || (!pad.truncate && declared >= pad.width && |text| >= pad.width)
  {
    var padded := Spaces(Before(declared, pad)) + text + Spaces(After(declared, pad));
    var full := dest + padded;
    var out := Append(dest, text, declared, pad);
    if declared == |text| {
      TrueLengthFits(dest, text, pad);
    } else if !pad.truncate && declared >= pad.width && |text| >= pad.width {
      assert padded == text && Fitted(text, pad) == text;
      assert full[..|full|] == full;
    } else if out.Buf? {
      assert |out.text| == |full| - Cut(declared, pad);
      assert |out.text| != |dest + Fitted(text, pad)|;
    }
  }

  /** The date field declares ten characters and writes eight: cut to one, it also eats what stands before it. */
  lemma ShortDateEatsItsNeighbour()
    ensures Append("ab", "08/23/01", 10, PadInfo(1, Left, true, true)) == Buf("a")
    ensures Append("", "08/23/01", 10, PadInfo(1, Left, true, true)) == Underflow
  {
    var pad := PadInfo(1, Left, true, true);
    assert Spaces(0) + "08/23/01" + Spaces(0) == "08/23/01";
    assert ("ab" + "08/23/01")[..1] == "a";
  }

  // ----- the padder itself -----

  class MemoryBuf {
    var text: string

    constructor ()
      ensures text == ""
    {
      text := "";
    }
  }

  /** Built before the text is written, closed after it. */
  class ScopedPadder {
    const padinfo: PadInfo
    const dest: MemoryBuf
    var remainingPad: int
    ghost const declared: nat

    ghost predicate Valid()
      reads this
    {
      && padinfo.width <= MAX_WIDTH
      && remainingPad == if declared < padinfo.width then After(declared, padinfo) else padinfo.width - declared
    }

    constructor (wrappedSize: nat, padinfo: PadInfo, dest: MemoryBuf)
      requires padinfo.width <= MAX_WIDTH
      modifies dest
      ensures Valid() && this.padinfo == padinfo && this.dest == dest && declared == wrappedSize
      ensures dest.text == old(dest.text) + Spaces(Before(wrappedSize, padinfo))
    {
      this.padinfo, this.dest := padinfo, dest;
      declared := wrappedSize;
      remainingPad := padinfo.width - wrappedSize;
      new;
      assert dest.text + Spaces(0) == dest.text;
      if remainingPad <= 0 {
        return;
      }
      if padinfo.side.Left? {
        PadIt(remainingPad);
        remainingPad := 0;
      } else if padinfo.side.Center? {
        var halfPad := remainingPad / 2;
        var reminder := remainingPad % 2;
        PadIt(halfPad);
        remainingPad := halfPad + reminder;
      }
    }

    /** Copies from a string of 64 spaces, and never from beyond it. */
    method PadIt(count: nat)
      requires count <= MAX_WIDTH
      modifies dest
      ensures dest.text == old(dest.text) + Spaces(count)
    {
      var spaces := Spaces(MAX_WIDTH);
      SpacesPrefix(count, MAX_WIDTH);
      dest.text := dest.text + spaces[..count];
    }

    lemma {:induction false} SpacesPrefix(m: nat, n: nat)
      requires m <= n
      ensures Spaces(n)[..m] == Spaces(m)
      decreases n
    {
      if m == n {
      } else {
        SpacesPrefix(m, n - 1);
        assert Spaces(n)[..m] == Spaces(n - 1)[..m];
      }
    }

    /** The destructor: pads the rest, or cuts. A cut beyond the start of the buffer is refused by the buffer. */
    method Close() returns (ok: bool)
      requires Valid()
      modifies this, dest
      ensures ok <==> Cut(declared, padinfo) <= |old(dest.text)|
      ensures ok ==> var full := old(dest.text) + Spaces(After(declared, padinfo));
                     dest.text == full[..|full| - Cut(declared, padinfo)]
    {
      ok := true;
      if remainingPad >= 0 {
        PadIt(remainingPad);
      } else {
        assert dest.text + Spaces(0) == dest.text;
        if padinfo.truncate {
          var newSize := |dest.text| + remainingPad;
          ok := newSize >= 0;
          if ok {
            dest.text := dest.text[..newSize];
          }
        }
      }
    }
  }

  /** How a formatter uses the padder. */
  method FormatPadded(text: string, declared: nat, pad: PadInfo, dest: MemoryBuf) returns (ok: bool)
    requires pad.width <= MAX_WIDTH
    modifies dest
    ensures ok <==> Append(old(dest.text), text, declared, pad).Buf?
    ensures ok ==> Buf(dest.text) == Append(old(dest.text), text, declared, pad)
  {
    ghost var start := dest.text;
    var p := new ScopedPadder(declared, pad, dest);
    dest.text := dest.text + text;
    ghost var written := dest.text;
    ok := p.Close();
    var before, after := Spaces(Before(declared, pad)), Spaces(After(declared, pad));
    assert written + after == start + (before + text + after);
    assert Cut(declared, pad) > 0 ==> after == "";
  }
}
