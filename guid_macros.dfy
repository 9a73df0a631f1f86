/**
 * `parse_guid` of the `guid!` procedural macro: a canonical GUID literal
 * "xxxxxxxx-xxxx-xxxx-xxxx-xxxxxxxxxxxx" becomes the five integers handed to
 * `Guid::from_values`.  Errors carry the span (byte offsets inside the
 * quoted literal) that the macro reports them at.
 */
module GuidMacros {
  import opened Common
  import Text
  import Utf8
  import Guid

  /** `str::len`: the length in UTF-8 bytes. */
  function ByteLen(s: string): nat
  {
    |Utf8.Encode(s)|
  }

  const CANONICAL_LEN: nat := 36
  /** Bytes of each component: a 32-bit integer, three 16-bit ones and a 48-bit one. */
  const WIDTHS: seq<nat> := [4, 2, 2, 2, 6]
  const UNWRAP_NONE: string := "called `Option::unwrap()` on a `None` value"

  datatype Span = Span(start: nat, end: nat)

  datatype GuidError =
    | NotCanonical(found: nat)
    | NotWidth(component: string, bits: nat, span: Span)
    | NotHex(component: string, span: Span)

  datatype GuidFields = GuidFields(timeLow: u32, timeMid: u16, timeHigh: u16, clockSeq: u16, node: u64)

  /** Where component k starts: after the opening quote and each earlier component and its dash. */
  function Offset(parts: seq<string>, k: nat): (r: nat)
    requires k <= |parts|
    ensures r >= 1
  {
    if k == 0 then 1 else Offset(parts, k - 1) + ByteLen(parts[k - 1]) + 1
  }

  /** The k-th call of the `next_guid_int` closure: the `unwrap` of the next piece, then its checks. */
  function NextGuidInt(parts: seq<string>, k: nat): (r: Outcome<Result<u64, GuidError>>)
    requires k < 5
    ensures r.Panics? <==> k >= |parts|
    ensures r.Returns? && r.value.Ok? ==> ByteLen(parts[k]) == 2 * WIDTHS[k]
  {
    if k >= |parts| then Panics(UNWRAP_NONE)
    else Returns(CheckComponent(parts[k], WIDTHS[k], Offset(parts, k)))
  }

  /** A component of `width` bytes starting at byte `start`: its length, then its hexadecimal value. */
  function CheckComponent(comp: string, width: nat, start: nat): (r: Result<u64, GuidError>)
    ensures r.Ok? ==> ByteLen(comp) == 2 * width
  {
    var span := Span(start, start + ByteLen(comp));
    if ByteLen(comp) != width * 2 then Err(NotWidth(comp, width * 8, span))
    else match Text.ParseUnsigned(comp, 16, U64_MAX)
      case None => Err(NotHex(comp, span))
      case Some(v) => Ok(v)
  }

  /** `xs` in front of the values of a run of calls, errors and panics passed through. */
  function Chain(xs: seq<u64>, o: Outcome<Result<seq<u64>, GuidError>>): Outcome<Result<seq<u64>, GuidError>>
  {
    match o
    case Panics(m) => Panics(m)
    case Returns(Err(e)) => Returns(Err(e))
    case Returns(Ok(ys)) => Returns(Ok(xs + ys))
  }

  /** Calls k, k + 1, ..., 4 of `next_guid_int`, each `?` stopping at the first error. */
  function Components(parts: seq<string>, k: nat): (r: Outcome<Result<seq<u64>, GuidError>>)
    requires k <= 5
    ensures r.Returns? && r.value.Ok? ==> |r.value.value| == 5 - k
    decreases 5 - k
  {
    if k == 5 then Returns(Ok([]))
    else
      var v :- NextGuidInt(parts, k);
      match v
      case Err(e) => Returns(Err(e))
      case Ok(x) => Chain([x], Components(parts, k + 1))
  }

  /** The `Ok((v0 as u32, v1 as u16, v2 as u16, v3 as u16, v4))` at the end of `parse_guid`. */
  function Finish(o: Outcome<Result<seq<u64>, GuidError>>): Outcome<Result<GuidFields, GuidError>>
    requires o.Returns? && o.value.Ok? ==> |o.value.value| == 5
  {
    match o
    case Panics(m) => Panics(m)
    case Returns(Err(e)) => Returns(Err(e))
    case Returns(Ok(vs)) =>
      Returns(Ok(GuidFields(vs[0] % 0x1_0000_0000, vs[1] % 0x1_0000, vs[2] % 0x1_0000, vs[3] % 0x1_0000, vs[4])))
  }

  /** `parse_guid`: the length check, then the five components of the split at '-'. */
  function ParseGuidOf(s: string): (r: Outcome<Result<GuidFields, GuidError>>)
    ensures ByteLen(s) != CANONICAL_LEN ==> r == Returns(Err(NotCanonical(ByteLen(s))))
  {
    if ByteLen(s) != CANONICAL_LEN then Returns(Err(NotCanonical(ByteLen(s))))
    else Finish(Components(Text.Split(s, '-'), 0))
  }

  // One call of `next_guid_int`, case by case.

  lemma StepEnd(parts: seq<string>)
    ensures Components(parts, 5) == Returns(Ok([]))
  {
  }

  lemma StepPanics(parts: seq<string>, k: nat)
    requires k < 5 && k >= |parts|
    ensures Components(parts, k) == Panics(UNWRAP_NONE)
  {
  }

  lemma StepWidth(parts: seq<string>, k: nat, comp: string, span: Span)
    requires k < 5 && k < |parts| && comp == parts[k] && ByteLen(comp) != 2 * WIDTHS[k]
    requires span == Span(Offset(parts, k), Offset(parts, k) + ByteLen(comp))
    ensures Components(parts, k) == Returns(Err(NotWidth(comp, WIDTHS[k] * 8, span)))
  {
    CheckWidth(comp, WIDTHS[k], Offset(parts, k));
    StepErr(parts, k, NotWidth(comp, WIDTHS[k] * 8, span));
  }

  lemma CheckWidth(comp: string, width: nat, start: nat)
    requires ByteLen(comp) != 2 * width
    ensures CheckComponent(comp, width, start) == Err(NotWidth(comp, width * 8, Span(start, start + ByteLen(comp))))
  {
  }

  /** A call that returns an error ends the run with it. */
  lemma StepErr(parts: seq<string>, k: nat, e: GuidError)
    requires k < 5 && k < |parts| && CheckComponent(parts[k], WIDTHS[k], Offset(parts, k)) == Err(e)
    ensures Components(parts, k) == Returns(Err(e))
  {
  }

  lemma StepHex(parts: seq<string>, k: nat, comp: string, span: Span)
    requires k < 5 && k < |parts| && comp == parts[k] && ByteLen(comp) == 2 * WIDTHS[k]
    requires Text.ParseUnsigned(comp, 16, U64_MAX).None?
    requires span == Span(Offset(parts, k), Offset(parts, k) + ByteLen(comp))
    ensures Components(parts, k) == Returns(Err(NotHex(comp, span)))
  {
    CheckHex(comp, WIDTHS[k], Offset(parts, k));
    StepErr(parts, k, NotHex(comp, span));
  }

  lemma CheckHex(comp: string, width: nat, start: nat)
    requires ByteLen(comp) == 2 * width && Text.ParseUnsigned(comp, 16, U64_MAX).None?
    ensures CheckComponent(comp, width, start) == Err(NotHex(comp, Span(start, start + ByteLen(comp))))
  {
  }

  lemma StepOk(parts: seq<string>, k: nat, v: u64)
    requires k < 5 && k < |parts| && ByteLen(parts[k]) == 2 * WIDTHS[k]
    requires Text.ParseUnsigned(parts[k], 16, U64_MAX) == Some(v as nat)
    ensures Components(parts, k) == Chain([v], Components(parts, k + 1))
  {
  }

  /**
   * `parse_guid` as the source runs it: the closure advances `offset` past
   * each component and its dash and pulls the next piece of the split.
   */
  method ParseGuid(s: string) returns (r: Outcome<Result<GuidFields, GuidError>>)
    ensures r == ParseGuidOf(s)
  {
    var len := ByteLen(s);
    if len != CANONICAL_LEN {
      return Returns(Err(NotCanonical(len)));
    }
    var offset := 1;
    var parts := Text.Split(s, '-');
    assert ParseGuidOf(s) == Finish(Components(parts, 0));
    var values: seq<u64> := [];
    var k := 0;
    ChainEmpty(Components(parts, 0));
    while k < 5
      invariant k <= 5 && k <= |parts| && |values| == k
      invariant offset == Offset(parts, k)
      invariant Components(parts, 0) == Chain(values, Components(parts, k))
    {
      if k >= |parts| {
        StepPanics(parts, k);
        StopsWith(parts, values, k, Panics(UNWRAP_NONE));
        return Panics(UNWRAP_NONE);
      }
      var comp := parts[k];
      var span := Span(offset, offset + ByteLen(comp));
      if ByteLen(comp) != WIDTHS[k] * 2 {
        StepWidth(parts, k, comp, span);
        StopsWith(parts, values, k, Returns(Err(NotWidth(comp, WIDTHS[k] * 8, span))));
        return Returns(Err(NotWidth(comp, WIDTHS[k] * 8, span)));
      }
      offset := offset + ByteLen(comp) + 1;
      var v := Text.ParseUnsigned(comp, 16, U64_MAX);
      if v.None? {
        StepHex(parts, k, comp, span);
        StopsWith(parts, values, k, Returns(Err(NotHex(comp, span))));
        return Returns(Err(NotHex(comp, span)));
      }
      StepOk(parts, k, v.value);
      ChainAppend(values, v.value, Components(parts, k + 1));
      values := values + [v.value];
      k := k + 1;
    }
    assert values + [] == values;
    assert Components(parts, 0) == Returns(Ok(values));
    r := Finish(Returns(Ok(values)));
  }

  /** A call that fails or panics ends the whole run with that outcome. */
  lemma StopsWith(parts: seq<string>, values: seq<u64>, k: nat, o: Outcome<Result<seq<u64>, GuidError>>)
    requires k <= 5 && (o.Panics? || o.value.Err?)
    requires Components(parts, 0) == Chain(values, Components(parts, k))
    requires Components(parts, k) == o
    ensures Components(parts, 0) == o
  {
  }

  lemma ChainEmpty(o: Outcome<Result<seq<u64>, GuidError>>)
    ensures Chain([], o) == o
  {
    if o.Returns? && o.value.Ok? {
      assert [] + o.value.value == o.value.value;
    }
  }

  lemma ChainAppend(xs: seq<u64>, x: u64, o: Outcome<Result<seq<u64>, GuidError>>)
    ensures Chain(xs, Chain([x], o)) == Chain(xs + [x], o)
  {
    if o.Returns? && o.value.Ok? {
      assert xs + ([x] + o.value.value) == xs + [x] + o.value.value;
    }
  }

  // ---------------------------------------------------------------------
  // The `unwrap` never fires

  /** Byte length of the pieces, summed. */
  function SumByteLen(parts: seq<string>): nat
  {
    if parts == [] then 0 else ByteLen(parts[0]) + SumByteLen(parts[1..])
  }

  /** Pieces of at most eight bytes each. */
  lemma {:induction false} SumByteLenBound(parts: seq<string>)
    requires forall j :: 0 <= j < |parts| ==> ByteLen(parts[j]) <= 8
    ensures SumByteLen(parts) <= 8 * |parts|
  {
    if parts != [] {
      SumByteLenBound(parts[1..]);
    }
  }

  /** The joined string is as long as its pieces and the dashes between them. */
  lemma {:induction false} JoinByteLen(parts: seq<string>)
    requires |parts| >= 1
    ensures ByteLen(Text.Join(parts, '-')) == SumByteLen(parts) + |parts| - 1
  {
    if |parts| > 1 {
      JoinByteLen(parts[1..]);
      Utf8.EncodeAppend(parts[0] + ['-'], Text.Join(parts[1..], '-'));
      Utf8.EncodeAppend(parts[0], ['-']);
      Utf8.EncodeAscii(['-']);
    }
  }

  /** A run of calls panics only when the pieces ran out after components of the right widths. */
  lemma {:induction false} ComponentsPanic(parts: seq<string>, k: nat)
    requires k <= 5 && k <= |parts| && Components(parts, k).Panics?
    ensures |parts| < 5
    ensures forall j :: k <= j < |parts| ==> ByteLen(parts[j]) == 2 * WIDTHS[j]
    decreases 5 - k
  {
    if k < |parts| {
      var v := NextGuidInt(parts, k);
      assert v.Returns? && v.value.Ok?;
      ComponentsPanic(parts, k + 1);
    }
  }

  /**
   * The `unwrap` in `next_guid_int` never panics: once the literal is 36
   * bytes, fewer than five pieces cannot all have the expected widths.
   */
  lemma ParseGuidNeverPanics(s: string)
    ensures ParseGuidOf(s).Returns?
  {
    if ByteLen(s) == CANONICAL_LEN {
      var parts := Text.Split(s, '-');
      if Components(parts, 0).Panics? {
        ComponentsPanic(parts, 0);
        Text.JoinSplit(s, '-');
        JoinByteLen(parts);
        SumByteLenBound(parts);
        assert false;
      }
    }
  }

  // ---------------------------------------------------------------------
  // Values fit their casts

  /** A component of 2w bytes parses to a value below 2^(8w). */
  lemma ComponentFits(comp: string, w: nat)
    requires ByteLen(comp) == 2 * w && Text.ParseUnsigned(comp, 16, U64_MAX).Some?
    ensures Text.ParseUnsigned(comp, 16, U64_MAX).value < Pow2(8 * w)
  {
    var digits := if comp[0] == '+' then comp[1..] else comp;
    Text.HexDigitsBound(digits);
    assert |digits| <= 2 * w;
    Pow2Monotone(4 * |digits|, 8 * w);
  }

  lemma {:induction false} Pow2Monotone(m: nat, n: nat)
    requires m <= n
    ensures Pow2(m) <= Pow2(n)
    decreases n
  {
    if m < n {
      Pow2Monotone(m, n - 1);
    }
  }

  lemma Pow2Widths()
    ensures Pow2(16) == 0x1_0000 && Pow2(32) == 0x1_0000_0000 && Pow2(48) == Guid.NODE_LIMIT
  {
    Guid.Pow2Widths();
    Text.Pow2Add(32); Text.Pow2Add(36); Text.Pow2Add(40); Text.Pow2Add(44);
  }

  /** Values of a successful run of calls, each below its width. */
  lemma {:induction false} ComponentsFit(parts: seq<string>, k: nat)
    requires k <= 5 && Components(parts, k).Returns? && Components(parts, k).value.Ok?
    ensures forall i :: 0 <= i < 5 - k ==> Components(parts, k).value.value[i] < Pow2(8 * WIDTHS[k + i])
    decreases 5 - k
  {
    if k < 5 {
      var x := OkStep(parts, k);
      ComponentFits(parts[k], WIDTHS[k]);
      ComponentsFit(parts, k + 1);
      var vs := Components(parts, k).value.value;
      forall i | 0 <= i < 5 - k ensures vs[i] < Pow2(8 * WIDTHS[k + i]) {
        if i > 0 { assert vs[i] == Components(parts, k + 1).value.value[i - 1]; }
      }
    }
  }

  /** A successful run starts with a successful call. */
  lemma OkStep(parts: seq<string>, k: nat) returns (x: u64)
    requires k < 5 && Components(parts, k).Returns? && Components(parts, k).value.Ok?
    ensures k < |parts| && ByteLen(parts[k]) == 2 * WIDTHS[k]
    ensures Text.ParseUnsigned(parts[k], 16, U64_MAX) == Some(x as nat)
    ensures Components(parts, k + 1).Returns? && Components(parts, k + 1).value.Ok?
    ensures Components(parts, k).value.value == [x] + Components(parts, k + 1).value.value
  {
    x := NextGuidInt(parts, k).value.value;
  }

  /**
   * The casts never truncate: every field is exactly the parsed component,
   * and the node fits in 48 bits.
   */
  lemma ParseGuidFits(s: string)
    requires ParseGuidOf(s).Returns? && ParseGuidOf(s).value.Ok?
    ensures ByteLen(s) == CANONICAL_LEN
    ensures Components(Text.Split(s, '-'), 0).Returns? && Components(Text.Split(s, '-'), 0).value.Ok?
    ensures var vs := Components(Text.Split(s, '-'), 0).value.value;
      var f := ParseGuidOf(s).value.value;
      && f.timeLow == vs[0] && f.timeMid == vs[1] && f.timeHigh == vs[2] && f.clockSeq == vs[3]
      && f.node == vs[4] && f.node < Guid.NODE_LIMIT
  {
    var parts := Text.Split(s, '-');
    var o := Components(parts, 0);
    assert ParseGuidOf(s) == Finish(o);
    FieldsFit(parts);
    FinishFits(o.value.value);
  }

  /** The five values of a successful run fit 32, 16, 16, 16 and 48 bits. */
  lemma FieldsFit(parts: seq<string>)
    requires Components(parts, 0).Returns? && Components(parts, 0).value.Ok?
    ensures var vs := Components(parts, 0).value.value;
      && |vs| == 5 && vs[0] < 0x1_0000_0000 && vs[1] < 0x1_0000 && vs[2] < 0x1_0000 && vs[3] < 0x1_0000
      && vs[4] < Guid.NODE_LIMIT
  {
    var vs := Components(parts, 0).value.value;
    ComponentsFit(parts, 0);
    Widths();
    Pow2Widths();
    assert vs[0] < Pow2(8 * 4) && vs[1] < Pow2(8 * 2) && vs[2] < Pow2(8 * 2);
    assert vs[3] < Pow2(8 * 2) && vs[4] < Pow2(8 * 6);
  }

  lemma FinishFits(vs: seq<u64>)
    requires |vs| == 5 && vs[0] < 0x1_0000_0000 && vs[1] < 0x1_0000 && vs[2] < 0x1_0000 && vs[3] < 0x1_0000
    ensures Finish(Returns(Ok(vs))) == Returns(Ok(GuidFields(vs[0], vs[1], vs[2], vs[3], vs[4])))
  {
  }

  // ---------------------------------------------------------------------
  // Round trip with the `CGuid` rendering

  /** A hexadecimal group parses to its value. */
  lemma ParseGroup(p: string, w: nat, n: nat)
    requires Guid.HexGroup(p, 2 * w) && w >= 1 && Text.DigitsValue(p, 16) == n && n <= U64_MAX
    ensures ByteLen(p) == 2 * w
    ensures Text.ParseUnsigned(p, 16, U64_MAX) == Some(n)
  {
    Utf8.EncodeAscii(p);
    Text.ParseDigits(p, 16, U64_MAX);
  }

  lemma SumByteLen5(p: seq<string>)
    requires |p| == 5
    ensures SumByteLen(p) == ByteLen(p[0]) + ByteLen(p[1]) + ByteLen(p[2]) + ByteLen(p[3]) + ByteLen(p[4])
  {
    assert SumByteLen(p[4..]) == ByteLen(p[4]) by { assert p[4..][1..] == []; }
    assert SumByteLen(p[3..]) == ByteLen(p[3]) + SumByteLen(p[4..]) by { assert p[3..][1..] == p[4..]; }
    assert SumByteLen(p[2..]) == ByteLen(p[2]) + SumByteLen(p[3..]) by { assert p[2..][1..] == p[3..]; }
    assert SumByteLen(p[1..]) == ByteLen(p[1]) + SumByteLen(p[2..]) by { assert p[1..][1..] == p[2..]; }
  }

  /** The rendering's pieces, split back at the dashes. */
  lemma SplitRender(g: Guid.CGuid, upper: bool)
    ensures Text.Split(Guid.Render(g, upper), '-') == Guid.Groups(g, upper)
    ensures ByteLen(Guid.Render(g, upper)) == CANONICAL_LEN
  {
    Guid.GroupsShape(g, upper);
    SplitGroups(Guid.Groups(g, upper));
  }

  /** Five dash-free ASCII groups of 8, 4, 4, 4 and 12 characters, joined and split again. */
  lemma SplitGroups(p: seq<string>)
    requires |p| == 5
    requires Guid.HexGroup(p[0], 8) && Guid.HexGroup(p[1], 4) && Guid.HexGroup(p[2], 4)
    requires Guid.HexGroup(p[3], 4) && Guid.HexGroup(p[4], 12)
    ensures Text.Split(Text.Join(p, '-'), '-') == p
    ensures ByteLen(Text.Join(p, '-')) == CANONICAL_LEN
  {
    assert forall k :: 0 <= k < |p| ==> '-' !in p[k];
    Text.SplitJoin(p, '-');
    JoinByteLen(p);
    Utf8.EncodeAscii(p[0]); Utf8.EncodeAscii(p[1]); Utf8.EncodeAscii(p[2]);
    Utf8.EncodeAscii(p[3]); Utf8.EncodeAscii(p[4]);
    SumByteLen5(p);
  }

  /**
   * `parse_guid` reads a `CGuid` rendering (either case) back: time low, mid and high,
   * the clock sequence and the node, so `Guid::from_values` of them is the
   * GUID that was rendered.
   */
  lemma ParseRender(g: Guid.CGuid, upper: bool)
    ensures ParseGuidOf(Guid.Render(g, upper)) ==
      Returns(Ok(GuidFields(g.a, g.b, g.c, Guid.ClockSeq(g), Guid.Node(g))))
    ensures Guid.FromValues(g.a, g.b, g.c, Guid.ClockSeq(g), Guid.Node(g)) == g
  {
    var p := Guid.Groups(g, upper);
    SplitRender(g, upper);
    var vs := GroupValues(g, upper);
    assert ParseGuidOf(Guid.Render(g, upper)) == Finish(Returns(Ok(vs)));
    FinishOfFields(g.a, g.b, g.c, Guid.ClockSeq(g), Guid.Node(g));
    Guid.FromValuesOfFields(g);
  }

  lemma FinishOfFields(a: u32, b: u16, c: u16, cs: u16, node: u64)
    ensures Finish(Returns(Ok([a, b, c, cs, node]))) == Returns(Ok(GuidFields(a, b, c, cs, node)))
  {
  }

  /** The five groups each parse to their field. */
  lemma GroupValues(g: Guid.CGuid, upper: bool) returns (vs: seq<u64>)
    ensures vs == [g.a, g.b, g.c, Guid.ClockSeq(g), Guid.Node(g)]
    ensures Components(Guid.Groups(g, upper), 0) == Returns(Ok(vs))
  {
    GroupParses(g, upper);
    ComponentsOfGroups(Guid.Groups(g, upper), g.a, g.b, g.c, Guid.ClockSeq(g), Guid.Node(g));
    vs := [g.a, g.b, g.c, Guid.ClockSeq(g), Guid.Node(g)];
  }

  /** The group `s` is `2 * w` bytes long and reads back as `n`. */
  predicate GroupReads(s: string, w: nat, n: nat)
  {
    ByteLen(s) == 2 * w && Text.ParseUnsigned(s, 16, U64_MAX) == Some(n)
  }

  /** Each group has twice its byte width in characters and reads back as its field. */
  lemma GroupParses(g: Guid.CGuid, upper: bool)
    ensures var p := Guid.Groups(g, upper);
      && |p| == 5
      && GroupReads(p[0], 4, g.a as nat) && GroupReads(p[1], 2, g.b as nat) && GroupReads(p[2], 2, g.c as nat)
      && GroupReads(p[3], 2, Guid.ClockSeq(g) as nat) && GroupReads(p[4], 6, Guid.Node(g))
  {
    var p := Guid.Groups(g, upper);
    Guid.Pow2Widths();
    TimeLowGroupParses(g, upper);
    TimeMidGroupParses(g, upper);
    TimeHighGroupParses(g, upper);
    ClockSeqGroupParses(g, upper);
    NodeParses(g, upper);
  }

  lemma TimeLowGroupParses(g: Guid.CGuid, upper: bool)
    ensures GroupReads(Guid.Groups(g, upper)[0], 4, g.a as nat)
  {
    Hex32Parses(Guid.Groups(g, upper)[0], g.a, upper);
  }

  lemma TimeMidGroupParses(g: Guid.CGuid, upper: bool)
    ensures GroupReads(Guid.Groups(g, upper)[1], 2, g.b as nat)
  {
    Hex16Parses(Guid.Groups(g, upper)[1], g.b, upper);
  }

  lemma TimeHighGroupParses(g: Guid.CGuid, upper: bool)
    ensures GroupReads(Guid.Groups(g, upper)[2], 2, g.c as nat)
  {
    Hex16Parses(Guid.Groups(g, upper)[2], g.c, upper);
  }

  lemma ClockSeqGroupParses(g: Guid.CGuid, upper: bool)
    ensures GroupReads(Guid.Groups(g, upper)[3], 2, Guid.ClockSeq(g) as nat)
  {
    Hex16Parses(Guid.Groups(g, upper)[3], Guid.ClockSeq(g), upper);
  }

  lemma Hex16Parses(s: string, n: u16, upper: bool)
    requires s == Guid.Hex(n, 4, upper)
    ensures GroupReads(s, 2, n as nat)
  {
    Guid.Pow2Widths();
    HexParses(s, n, 2, upper);
  }

  lemma Hex32Parses(s: string, n: u32, upper: bool)
    requires s == Guid.Hex(n, 8, upper)
    ensures GroupReads(s, 4, n as nat)
  {
    Guid.Pow2Widths();
    HexParses(s, n, 4, upper);
  }

  /** A field of `w` bytes printed as 2w hex digits reads back as that field. */
  lemma HexParses(s: string, n: nat, w: nat, upper: bool)
    requires w >= 1 && n < Pow2(8 * w) && n <= U64_MAX && s == Guid.Hex(n, 2 * w, upper)
    ensures GroupReads(s, w, n)
  {
    Guid.HexOfGroup(n, 2 * w, upper);
    ParseGroup(s, w, n);
  }

  /** The 12-digit node group reads back as the 48-bit node. */
  lemma NodeParses(g: Guid.CGuid, upper: bool)
    ensures GroupReads(Guid.NodeGroup(g, upper), 6, Guid.Node(g))
  {
    Guid.LastGroupShape(g, upper);
    ParseGroup(Guid.NodeGroup(g, upper), 6, Guid.Node(g));
  }

  /** Five pieces of the right widths that all parse give their values in order. */
  lemma ComponentsOfGroups(p: seq<string>, a: u64, b: u64, c: u64, cs: u64, node: u64)
    requires |p| == 5
    requires GroupReads(p[0], 4, a as nat) && GroupReads(p[1], 2, b as nat) && GroupReads(p[2], 2, c as nat)
    requires GroupReads(p[3], 2, cs as nat) && GroupReads(p[4], 6, node as nat)
    ensures Components(p, 0) == Returns(Ok([a, b, c, cs, node]))
  {
    TailComponents(p, b, c, cs, node);
    Widths();
    ChainOk(p, 0, 4, a, [b, c, cs, node]);
    ConsFour(a, [b, c, cs, node]);
  }

  /** The last four pieces give the last four values. */
  lemma TailComponents(p: seq<string>, b: u64, c: u64, cs: u64, node: u64)
    requires |p| == 5
    requires GroupReads(p[1], 2, b as nat) && GroupReads(p[2], 2, c as nat)
    requires GroupReads(p[3], 2, cs as nat) && GroupReads(p[4], 6, node as nat)
    ensures Components(p, 1) == Returns(Ok([b, c, cs, node]))
  {
    LastComponents(p, c, cs, node);
    Widths();
    ChainOk(p, 1, 2, b, [c, cs, node]);
    assert [b] + [c, cs, node] == [b, c, cs, node];
  }

  /** The last three pieces give the last three values. */
  lemma LastComponents(p: seq<string>, c: u64, cs: u64, node: u64)
    requires |p| == 5
    requires GroupReads(p[2], 2, c as nat) && GroupReads(p[3], 2, cs as nat) && GroupReads(p[4], 6, node as nat)
    ensures Components(p, 2) == Returns(Ok([c, cs, node]))
  {
    StepEnd(p);
    Widths();
    ChainOk(p, 4, 6, node, []);
    assert [node] + [] == [node];
    ChainOk(p, 3, 2, cs, [node]);
    assert [cs] + [node] == [cs, node];
    ChainOk(p, 2, 2, c, [cs, node]);
    assert [c] + [cs, node] == [c, cs, node];
  }

  lemma ConsFour(a: u64, tail: seq<u64>)
    requires |tail| == 4
    ensures [a] + tail == [a, tail[0], tail[1], tail[2], tail[3]]
  {
  }

  lemma Widths()
    ensures WIDTHS[0] == 4 && WIDTHS[1] == 2 && WIDTHS[2] == 2 && WIDTHS[3] == 2 && WIDTHS[4] == 6
  {
  }

  /** A piece that reads as x in front of a run that gives ys gives x and then ys. */
  lemma ChainOk(p: seq<string>, k: nat, w: nat, x: u64, ys: seq<u64>)
    requires k < 5 && k < |p| && w == WIDTHS[k] && GroupReads(p[k], w, x as nat)
    requires Components(p, k + 1) == Returns(Ok(ys))
    ensures Components(p, k) == Returns(Ok([x] + ys))
  {
    StepOk(p, k, x);
  }
}
