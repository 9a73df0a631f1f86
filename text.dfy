/**
 * The Rust `str` operations the core relies on: `trim`, `trim_end_matches`,
 * `split`, `lines`, `starts_with`, integer parsing (`str::parse`,
 * `from_str_radix`) and integer formatting (`{}`, `{:x}`, `{:02X}`).
 */
module Text {
  import opened Common

  /** `char::is_whitespace`: the Unicode White_Space property. */
  predicate IsWhitespace(c: char)
  {
    var n := c as int;
    (0x09 <= n <= 0x0D) || n == 0x20 || n == 0x85 || n == 0xA0 || n == 0x1680 ||
    (0x2000 <= n <= 0x200A) || n == 0x2028 || n == 0x2029 || n == 0x202F ||
    n == 0x205F || n == 0x3000
  }

  /** `str::trim_start`. */
  function TrimStart(s: string): (r: string)
    ensures |r| <= |s| && r == s[|s| - |r|..]
    ensures r == [] || !IsWhitespace(r[0])
    ensures forall i :: 0 <= i < |s| - |r| ==> IsWhitespace(s[i])
  {
    if s != [] && IsWhitespace(s[0]) then TrimStart(s[1..]) else s
  }

  /** `str::trim_end`. */
  function TrimEnd(s: string): (r: string)
    ensures |r| <= |s| && r == s[..|r|]
    ensures r == [] || !IsWhitespace(r[|r| - 1])
    ensures forall i :: |r| <= i < |s| ==> IsWhitespace(s[i])
  {
    if s != [] && IsWhitespace(s[|s| - 1]) then TrimEnd(s[..|s| - 1]) else s
  }

  /** `str::trim`: leading and trailing white space removed. */
  function Trim(s: string): (r: string)
    ensures r == [] || (!IsWhitespace(r[0]) && !IsWhitespace(r[|r| - 1]))
  {
    TrimEnd(TrimStart(s))
  }

  /** `str::trim_end_matches(c)`. */
  function TrimEndMatches(s: string, c: char): (r: string)
    ensures |r| <= |s| && r == s[..|r|]
    ensures r == [] || r[|r| - 1] != c
    ensures forall i :: |r| <= i < |s| ==> s[i] == c
  {
    if s != [] && s[|s| - 1] == c then TrimEndMatches(s[..|s| - 1], c) else s
  }

  /** Trimming a string that neither starts nor ends with white space changes nothing. */
  lemma TrimUnchanged(s: string)
    requires s == [] || (!IsWhitespace(s[0]) && !IsWhitespace(s[|s| - 1]))
    ensures Trim(s) == s
  {
  }

  /** A string with no white space at either end. */
  predicate Trimmed(s: string)
  {
    s == [] || (!IsWhitespace(s[0]) && !IsWhitespace(s[|s| - 1]))
  }

  lemma {:induction false} TrimEndPadded(s: string, pad: string)
    requires Trimmed(s)
    requires forall i :: 0 <= i < |pad| ==> IsWhitespace(pad[i])
    ensures TrimEnd(s + pad) == s
    decreases |pad|
  {
    if pad == [] {
      assert s + pad == s;
    } else {
      var t := s + pad;
      assert t[|t| - 1] == pad[|pad| - 1];
      assert t[..|t| - 1] == s + pad[..|pad| - 1];
      TrimEndPadded(s, pad[..|pad| - 1]);
    }
  }

  /** Trimming a trimmed string followed by white-space padding gives the string back. */
  lemma TrimPadded(s: string, pad: string)
    requires Trimmed(s)
    requires forall i :: 0 <= i < |pad| ==> IsWhitespace(pad[i])
    ensures Trim(s + pad) == s
  {
    if s == [] {
      assert s + pad == pad;
      assert TrimStart(pad) == [];
    } else {
      assert (s + pad)[0] == s[0];
      assert TrimStart(s + pad) == s + pad;
      TrimEndPadded(s, pad);
    }
  }

  /** `trim_end_matches(c)` removes exactly a run of `c` appended to a string that does not end in `c`. */
  lemma {:induction false} TrimEndMatchesPadded(s: string, pad: string, c: char)
    requires s == [] || s[|s| - 1] != c
    requires forall i :: 0 <= i < |pad| ==> pad[i] == c
    ensures TrimEndMatches(s + pad, c) == s
    decreases |pad|
  {
    if pad == [] {
      assert s + pad == s;
    } else {
      var t := s + pad;
      assert t[|t| - 1] == pad[|pad| - 1];
      assert t[..|t| - 1] == s + pad[..|pad| - 1];
      TrimEndMatchesPadded(s, pad[..|pad| - 1], c);
    }
  }

  predicate StartsWith(s: string, prefix: string)
  {
    |prefix| <= |s| && s[..|prefix|] == prefix
  }

  /** First index of `c` in `s`, or |s|. */
  function IndexOf(s: string, c: char): (i: nat)
    ensures i <= |s| && (i < |s| ==> s[i] == c)
    ensures forall j :: 0 <= j < i ==> s[j] != c
  {
    if s == [] then 0 else if s[0] == c then 0 else 1 + IndexOf(s[1..], c)
  }

  /** `s.split(sep)`: always at least one piece; pieces never contain `sep`. */
  function Split(s: string, sep: char): (r: seq<string>)
    ensures |r| >= 1
    ensures forall k :: 0 <= k < |r| ==> sep !in r[k]
    decreases |s|
  {
    var i := IndexOf(s, sep);
    if i == |s| then [s] else [s[..i]] + Split(s[i + 1..], sep)
  }

  /** Pieces joined back with the separator. */
  function Join(pieces: seq<string>, sep: char): string
    requires |pieces| >= 1
  {
    if |pieces| == 1 then pieces[0] else pieces[0] + [sep] + Join(pieces[1..], sep)
  }

  /** A join ends with its last piece. */
  lemma {:induction false} JoinEnd(pieces: seq<string>, sep: char)
    requires |pieces| >= 1
    ensures var j, last := Join(pieces, sep), pieces[|pieces| - 1];
      |j| >= |last| && j[|j| - |last|..] == last
  {
    if |pieces| > 1 {
      JoinEnd(pieces[1..], sep);
      var rest := Join(pieces[1..], sep);
      assert Join(pieces, sep) == (pieces[0] + [sep]) + rest;
    }
  }

  /** Splitting loses nothing: joining the pieces gives the input back. */
  lemma {:induction false} JoinSplit(s: string, sep: char)
    ensures Join(Split(s, sep), sep) == s
    decreases |s|
  {
    var i := IndexOf(s, sep);
    if i < |s| {
      JoinSplit(s[i + 1..], sep);
      assert s == s[..i] + [sep] + s[i + 1..];
    }
  }

  /** Splitting a join of separator-free pieces gives the pieces back. */
  lemma {:induction false} SplitJoin(pieces: seq<string>, sep: char)
    requires |pieces| >= 1
    requires forall k :: 0 <= k < |pieces| ==> sep !in pieces[k]
    ensures Split(Join(pieces, sep), sep) == pieces
  {
    var p := pieces[0];
    if |pieces| == 1 {
      assert IndexOf(p, sep) == |p|;
    } else {
      var s := Join(pieces, sep);
      var rest := Join(pieces[1..], sep);
      assert s == p + ([sep] + rest);
      assert s[|p|] == sep;
      assert forall j :: 0 <= j < |p| ==> s[j] == p[j];
      assert IndexOf(s, sep) == |p|;
      assert s[..|p|] == p;
      assert s[|p| + 1..] == rest;
      SplitJoin(pieces[1..], sep);
    }
  }

  /** `str::lines`: split at '\n', drop one '\r' before each '\n', no empty last line. */
  function Lines(s: string): (r: seq<string>)
    decreases |s|
  {
    if s == [] then []
    else
      var i := IndexOf(s, '\n');
      if i == |s| then [s]
      else
        var line := if i > 0 && s[i - 1] == '\r' then s[..i - 1] else s[..i];
        [line] + Lines(s[i + 1..])
  }

  // ---------------------------------------------------------------------
  // Digits

  /** `char::to_digit(radix)` for radix 2..36. */
  function DigitValue(c: char, radix: nat): (r: Option<nat>)
    requires 2 <= radix <= 36
    ensures r.Some? ==> r.value < radix
  {
    var v :=
      if '0' <= c <= '9' then c as int - '0' as int
      else if 'a' <= c <= 'z' then c as int - 'a' as int + 10
      else if 'A' <= c <= 'Z' then c as int - 'A' as int + 10
      else 36;
    if v < radix then Some(v) else None
  }

  predicate AllDigits(s: string, radix: nat)
    requires 2 <= radix <= 36
  {
    forall i :: 0 <= i < |s| ==> DigitValue(s[i], radix).Some?
  }

  /** Value of a digit string, most significant digit first. */
  function DigitsValue(s: string, radix: nat): (v: nat)
    requires 2 <= radix <= 36
    requires AllDigits(s, radix)
  {
    if s == [] then 0
    else DigitsValue(s[..|s| - 1], radix) * radix + DigitValue(s[|s| - 1], radix).value
  }

  /**
   * `u*::from_str_radix(s, radix)` (and `str::parse` for radix 10): an
   * optional '+', then at least one digit; the value must not exceed `max`.
   */
  function ParseUnsigned(s: string, radix: nat, max: nat): (r: Option<nat>)
    requires 2 <= radix <= 36
    ensures r.Some? ==> r.value <= max
    ensures s == [] ==> r.None?
  {
    if s == [] || (|s| == 1 && (s[0] == '+' || s[0] == '-')) then None
    else
      var digits := if s[0] == '+' then s[1..] else s;
      if !AllDigits(digits, radix) then None
      else if DigitsValue(digits, radix) > max then None
      else Some(DigitsValue(digits, radix))
  }

  /** A parse that fits a smaller bound gives the same value under it. */
  lemma ParseUnsignedWithin(s: string, radix: nat, max: nat, bound: nat)
    requires 2 <= radix <= 36
    requires ParseUnsigned(s, radix, max).Some? && ParseUnsigned(s, radix, max).value <= bound
    ensures ParseUnsigned(s, radix, bound) == ParseUnsigned(s, radix, max)
  {
  }

  /** The digit character for value d (lower- or upper-case letters above 9). */
  function DigitChar(d: nat, upper: bool): (c: char)
    requires d < 16
  {
    if d < 10 then ('0' as int + d) as char
    else if upper then ('A' as int + d - 10) as char
    else ('a' as int + d - 10) as char
  }

  lemma DigitCharValue(d: nat, upper: bool, radix: nat)
    requires d < radix && 2 <= radix <= 16
    ensures DigitValue(DigitChar(d, upper), radix) == Some(d)
  {
  }

  /** `format!("{}", n)` (radix 10) and `format!("{:x}", n)` / `{:X}` (radix 16). */
  function FormatRadix(n: nat, radix: nat, upper: bool): (r: string)
    requires radix == 10 || radix == 16
    ensures |r| >= 1
  {
    if n < radix then [DigitChar(n, upper)]
    else FormatRadix(n / radix, radix, upper) + [DigitChar(n % radix, upper)]
  }

  function FormatDec(n: nat): (r: string)
    ensures |r| >= 1
  {
    FormatRadix(n, 10, false)
  }

  /** `format!("{:0w$X}", n)`-style zero padding to at least `width` characters. */
  function PadZeros(s: string, width: nat): (r: string)
    ensures |r| == Max(width, |s|)
    ensures r[|r| - |s|..] == s
    ensures forall i :: 0 <= i < |r| - |s| ==> r[i] == '0'
    decreases width - |s|
  {
    if |s| >= width then s else PadZeros(['0'] + s, width)
  }

  /** The formatted number is a digit string whose value is the number. */
  lemma {:induction false} FormatRadixValue(n: nat, radix: nat, upper: bool)
    requires radix == 10 || radix == 16
    ensures AllDigits(FormatRadix(n, radix, upper), radix)
    ensures DigitsValue(FormatRadix(n, radix, upper), radix) == n
  {
    var r := FormatRadix(n, radix, upper);
    if n < radix {
      DigitCharValue(n, upper, radix);
    } else {
      var q, d := n / radix, n % radix;
      assert n == q * radix + d by {
        if radix == 10 { assert n == (n / 10) * 10 + n % 10; }
        else { assert n == (n / 16) * 16 + n % 16; }
      }
      FormatRadixValue(q, radix, upper);
      DigitCharValue(d, upper, radix);
      AppendDigit(FormatRadix(q, radix, upper), DigitChar(d, upper), radix);
    }
  }

  /** Appending a digit shifts the value up one place and adds the digit. */
  lemma AppendDigit(pre: string, c: char, radix: nat)
    requires 2 <= radix <= 36 && AllDigits(pre, radix) && DigitValue(c, radix).Some?
    ensures AllDigits(pre + [c], radix)
    ensures DigitsValue(pre + [c], radix) == DigitsValue(pre, radix) * radix + DigitValue(c, radix).value
  {
    var r := pre + [c];
    assert r[..|r| - 1] == pre;
    assert AllDigits(r, radix) by {
      forall i | 0 <= i < |r| ensures DigitValue(r[i], radix).Some? {
        if i < |pre| { assert r[i] == pre[i]; }
      }
    }
  }

  /** Leading zeros do not change a digit string's value. */
  lemma {:induction false} ZerosValue(s: string, k: nat, radix: nat)
    requires 2 <= radix <= 36
    requires k <= |s| && forall i :: 0 <= i < k ==> s[i] == '0'
    requires AllDigits(s[k..], radix)
    ensures AllDigits(s, radix) && DigitsValue(s, radix) == DigitsValue(s[k..], radix)
    decreases |s|
  {
    if k == |s| {
      ZerosOnly(s, radix);
    } else {
      var t := s[..|s| - 1];
      assert t[k..] == s[k..][..|s[k..]| - 1];
      ZerosValue(t, k, radix);
    }
  }

  lemma {:induction false} ZerosOnly(s: string, radix: nat)
    requires 2 <= radix <= 36
    requires forall i :: 0 <= i < |s| ==> s[i] == '0'
    ensures AllDigits(s, radix) && DigitsValue(s, radix) == 0
  {
    if s != [] {
      ZerosOnly(s[..|s| - 1], radix);
    }
  }

  /** A plain digit string (no sign) parses to its value when that fits. */
  lemma ParseDigits(s: string, radix: nat, max: nat)
    requires 2 <= radix <= 36
    requires s != [] && AllDigits(s, radix) && DigitsValue(s, radix) <= max
    ensures ParseUnsigned(s, radix, max) == Some(DigitsValue(s, radix))
  {
    assert DigitValue(s[0], radix).Some?;
  }

  /** Round trip: `format!("{}", n).parse()` gives n back when it fits. */
  lemma ParseFormatDec(n: nat, max: nat)
    requires n <= max
    ensures ParseUnsigned(FormatDec(n), 10, max) == Some(n)
  {
    FormatRadixValue(n, 10, false);
    ParseDigits(FormatDec(n), 10, max);
  }

  /** Round trip for zero-padded hex, as in `{:08X}` or `{:02x}`. */
  lemma ParseFormatHex(n: nat, width: nat, upper: bool, max: nat)
    requires n <= max
    ensures ParseUnsigned(PadZeros(FormatRadix(n, 16, upper), width), 16, max) == Some(n)
  {
    var f := FormatRadix(n, 16, upper);
    var p := PadZeros(f, width);
    FormatRadixValue(n, 16, upper);
    assert p[|p| - |f|..] == f;
    ZerosValue(p, |p| - |f|, 16);
    ParseDigits(p, 16, max);
  }
  /** A digit character is an ASCII letter or digit: never a sign or a separator. */
  lemma DigitsAscii(s: string, radix: nat)
    requires 2 <= radix <= 36 && AllDigits(s, radix)
    ensures forall i :: 0 <= i < |s| ==> s[i] as int < 0x80
    ensures '-' !in s && '.' !in s && '+' !in s && ':' !in s
    ensures forall i :: 0 <= i < |s| ==> !IsWhitespace(s[i])
  {
    forall i | 0 <= i < |s| ensures s[i] as int < 0x80 && s[i] != '-' && s[i] != '.' && s[i] != '+' && s[i] != ':' && !IsWhitespace(s[i]) {
      assert DigitValue(s[i], radix).Some?;
    }
  }

  /** A hexadecimal digit string of length k is below 16^k. */
  lemma {:induction false} HexDigitsBound(s: string)
    requires AllDigits(s, 16)
    ensures DigitsValue(s, 16) < Pow2(4 * |s|)
  {
    if s != [] {
      var t := s[..|s| - 1];
      assert AllDigits(t, 16) by {
        forall i | 0 <= i < |t| ensures DigitValue(t[i], 16).Some? { assert t[i] == s[i]; }
      }
      HexDigitsBound(t);
      assert Pow2(4 * |s|) == 16 * Pow2(4 * |t|) by {
        assert 4 * |s| == 4 * |t| + 4;
        Pow2Add(4 * |t|);
      }
    }
  }

  lemma Pow2Add(n: nat)
    ensures Pow2(n + 4) == 16 * Pow2(n)
  {
    assert Pow2(n + 4) == 2 * Pow2(n + 3) == 4 * Pow2(n + 2) == 8 * Pow2(n + 1);
  }

  /** Two hexadecimal digit strings side by side read as one number. */
  lemma {:induction false} HexDigitsAppend(x: string, y: string)
    requires AllDigits(x, 16) && AllDigits(y, 16)
    ensures AllDigits(x + y, 16)
    ensures DigitsValue(x + y, 16) == DigitsValue(x, 16) * Pow2(4 * |y|) + DigitsValue(y, 16)
    decreases |y|
  {
    var s := x + y;
    assert AllDigits(s, 16) by {
      forall i | 0 <= i < |s| ensures DigitValue(s[i], 16).Some? {
        if i < |x| { assert s[i] == x[i]; } else { assert s[i] == y[i - |x|]; }
      }
    }
    if y == [] {
      assert s == x;
    } else {
      var y' := y[..|y| - 1];
      assert AllDigits(y', 16) by {
        forall i | 0 <= i < |y'| ensures DigitValue(y'[i], 16).Some? { assert y'[i] == y[i]; }
      }
      HexDigitsAppend(x, y');
      assert s[..|s| - 1] == x + y';
      Pow2Add(4 * |y'|);
      ShiftDigit(DigitsValue(x, 16), DigitsValue(y', 16), Pow2(4 * |y'|), DigitValue(y[|y| - 1], 16).value);
    }
  }

  lemma ShiftDigit(vx: nat, vy: nat, p: nat, d: nat)
    ensures (vx * p + vy) * 16 + d == vx * (16 * p) + (vy * 16 + d)
  {
  }

  /** Hexadecimal formatting of n below 16^w takes at most w digits. */
  lemma {:induction false} FormatHexWidth(n: nat, w: nat, upper: bool)
    requires w >= 1 && n < Pow2(4 * w)
    ensures |FormatRadix(n, 16, upper)| <= w
  {
    if n >= 16 {
      Pow2Add(0);
      assert w >= 2;
      assert Pow2(4 * w) == 16 * Pow2(4 * (w - 1)) by { Pow2Add(4 * (w - 1)); }
      FormatHexWidth(n / 16, w - 1, upper);
    }
  }

  /**
   * `{:0w$X}` of n below 16^w: exactly w hexadecimal digits reading back
   * as n, all ASCII.
   */
  lemma HexField(n: nat, w: nat, upper: bool)
    requires w >= 1 && n < Pow2(4 * w)
    ensures var p := PadZeros(FormatRadix(n, 16, upper), w);
      && |p| == w && AllDigits(p, 16) && DigitsValue(p, 16) == n
      && (forall i :: 0 <= i < |p| ==> p[i] as int < 0x80)
      && '-' !in p && '.' !in p && '+' !in p
  {
    var f := FormatRadix(n, 16, upper);
    var p := PadZeros(f, w);
    FormatHexWidth(n, w, upper);
    FormatRadixValue(n, 16, upper);
    assert p[|p| - |f|..] == f;
    ZerosValue(p, |p| - |f|, 16);
    DigitsAscii(p, 16);
  }
}
