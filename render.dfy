/**
 The per-map report line:
   `<id>: <type name, or "type " and the numeric type>  name: <name>  flags 0x<hex flags>`
 written by four printf calls. The id is printed with `%d` although it is a
 `__u32`, so ids at or above 2^31 come out negative; the numeric type uses
 `%u` and the flags `%x` (lower-case hex, no leading zeros).
 */
module Render {
  import opened BpfKernel

  /** What libbpf_bpf_map_type_str knows: a partial map from map type to its name (NULL elsewhere). */
  type TypeNames = map<U32, string>

  const DIGITS := "0123456789abcdef"

  /** The value of a digit character, the inverse of indexing DIGITS. */
  function DigitValue(ch: char): (v: nat)
    ensures v < 16
  {
    if '0' <= ch <= '9' then (ch - '0') as nat
    else if 'a' <= ch <= 'f' then (ch - 'a') as nat + 10
    else 0
  }

  lemma DigitValueOfDigit(d: nat)
    requires d < 16
    ensures DigitValue(DIGITS[d]) == d
  {
  }

  /** Euclidean division by a digit base, in the form the digit functions need. */
  lemma DivideByBase(n: nat, base: nat)
    requires 2 <= base <= 16
    ensures n == (n / base) * base + n % base
    ensures 0 <= n % base < base
    ensures n >= base ==> 1 <= n / base < n
  {
    var q, d := n / base, n % base;
    assert n == q * base + d;
    if n >= base {
      assert q >= 1;
      assert q * base >= q * 2;
    }
  }

  /** The digits of `n` in `base`, most significant first, without leading zeros. */
  function Digits(n: nat, base: nat): (s: string)
    requires 2 <= base <= 16
    ensures |s| >= 1
    decreases n
  {
    DivideByBase(n, base);
    DigitValueOfDigit(n % base);
    if n < base then [DIGITS[n]]
    else Digits(n / base, base) + [DIGITS[n % base]]
  }

  /** Reads a string of digits in `base`, most significant first. */
  function ParseDigits(s: string, base: nat): (n: nat)
    requires 2 <= base <= 16
  {
    if s == [] then 0
    else ParseDigits(s[..|s| - 1], base) * base + DigitValue(s[|s| - 1])
  }

  lemma {:induction false} DigitsRoundTrip(n: nat, base: nat)
    requires 2 <= base <= 16
    ensures ParseDigits(Digits(n, base), base) == n
    decreases n
  {
    var s := Digits(n, base);
    if n < base {
      assert s[..|s| - 1] == [];
      DigitValueOfDigit(n);
    } else {
      var q, d := n / base, n % base;
      DivideByBase(n, base);
      DigitsRoundTrip(q, base);
      assert s[..|s| - 1] == Digits(q, base);
      DigitValueOfDigit(d);
    }
  }

  function Decimal(n: nat): (s: string) { Digits(n, 10) }

  function Hex(n: nat): (s: string) { Digits(n, 16) }

  /** The value a `__u32` has when printf reads it back as a signed 32-bit `int` for `%d`. */
  function Signed32(x: U32): (v: int) {
    if x < 0x8000_0000 then x else x - 0x1_0000_0000
  }

  /** printf("%d", x) for a `__u32` argument `x`. */
  function PrintfD(x: U32): (s: string)
    ensures |s| >= 1 && ':' !in s
    ensures s[0] == '-' <==> Signed32(x) < 0
  {
    if x < 0x8000_0000 then
      DigitsHaveNo(x, 10, ':');
      DigitsHaveNo(x, 10, '-');
      Decimal(x)
    else
      DigitsHaveNo(0x1_0000_0000 - x, 10, ':');
      "-" + Decimal(0x1_0000_0000 - x)
  }

  /** The text printed for the map type: its known name, or `type <N>` with `%u`. */
  function TypeText(mapType: U32, names: TypeNames): (s: string)
    ensures mapType !in names ==> |s| > 5 && s[..5] == "type " && ParseDigits(s[5..], 10) == mapType
  {
    if mapType in names then names[mapType]
    else
      DigitsRoundTrip(mapType, 10);
      var text := "type " + Decimal(mapType);
      assert text[5..] == Decimal(mapType);
      text
  }

  /**
   The text of the four printf calls for one map, without the final
   newline: `%d: `, then `%s  ` (or `type %u  `), then `name: %s  `, then
   `flags 0x%x`.
   */
  function Line(idText: string, typeText: string, name: string, flagsText: string): (line: string) {
    idText + ":" + Tail(typeText, name, flagsText)
  }

  /** What follows the colon after the id. */
  function Tail(typeText: string, name: string, flagsText: string): (s: string) {
    " " + typeText + "  " + "name: " + name + "  " + "flags 0" + ['x'] + flagsText
  }

  /**
   The line printed for map `id` with info record `info`: the `%d` text
   first, the hex flags last, and besides the four fields only the 20
   fixed characters `: `, `  `, `name: `, `  ` and `flags 0x`.
   */
  function FormatLine(id: U32, info: MapInfo, names: TypeNames): (line: string)
    ensures |line| == |PrintfD(id)| + |TypeText(info.mapType, names)| + |info.name| + |Hex(info.flags)| + 20
    ensures line[..|PrintfD(id)|] == PrintfD(id)
    ensures line[|line| - |Hex(info.flags)|..] == Hex(info.flags)
  {
    var idText, flagsText := PrintfD(id), Hex(info.flags);
    var line := Line(idText, TypeText(info.mapType, names), info.name, flagsText);
    LineParts(idText, TypeText(info.mapType, names), info.name, flagsText);
    line
  }

  // ---- Reading a line back ----

  /** The text of `s` before the first `ch` (all of `s` if there is none). */
  function Before(s: string, ch: char): (head: string) {
    if s == [] || s[0] == ch then [] else [s[0]] + Before(s[1..], ch)
  }

  /** The text of `s` after the last `ch` (all of `s` if there is none). */
  function AfterLast(s: string, ch: char): (tail: string) {
    if s == [] || s[|s| - 1] == ch then [] else AfterLast(s[..|s| - 1], ch) + [s[|s| - 1]]
  }

  /** Reads an optionally negative decimal number. */
  function ParseSigned(s: string): (v: int) {
    if |s| > 0 && s[0] == '-' then 0 - ParseDigits(s[1..], 10) as int else ParseDigits(s, 10)
  }

  /** The id a report line starts with. */
  function LineId(line: string): (v: int) {
    ParseSigned(Before(line, ':'))
  }

  /** The flags a report line ends with. */
  function LineFlags(line: string): (v: nat) {
    ParseDigits(AfterLast(line, 'x'), 16)
  }

  /** The numeric type a line shows when it has no type name: `Some(N)` for `type <N>`. */
  function LineTypeCode(line: string): (code: Option<nat>) {
    var head := Before(line, ':');
    if |line| < |head| + 2 then None else TypeCode(line[|head| + 2..])
  }

  /** Reads `type <N>` at the start of the text after the id. */
  function TypeCode(rest: string): (code: Option<nat>) {
    if |rest| >= 5 && rest[..5] == "type " then Some(ParseDigits(Before(rest[5..], ' '), 10)) else None
  }

  lemma {:induction false} BeforeSplit(a: string, ch: char, b: string)
    requires ch !in a
    ensures Before(a + [ch] + b, ch) == a
  {
    if a != [] {
      assert (a + [ch] + b)[1..] == a[1..] + [ch] + b;
      BeforeSplit(a[1..], ch, b);
    }
  }

  lemma {:induction false} AfterLastSplit(a: string, ch: char, b: string)
    requires ch !in b
    ensures AfterLast(a + [ch] + b, ch) == b
  {
    var s := a + [ch] + b;
    if b != [] {
      assert s[..|s| - 1] == a + [ch] + b[..|b| - 1];
      AfterLastSplit(a, ch, b[..|b| - 1]);
    } else {
      assert s[|s| - 1] == ch;
    }
  }

  lemma {:induction false} DigitsHaveNo(n: nat, base: nat, ch: char)
    requires 2 <= base <= 16
    requires ch !in DIGITS
    ensures ch !in Digits(n, base)
    decreases n
  {
    DivideByBase(n, base);
    if n >= base {
      DigitsHaveNo(n / base, base, ch);
    }
  }

  /** `%d` prints a `__u32` as its signed 32-bit reading: the printed text reads back as Signed32(x). */
  lemma PrintfDReadsBack(x: U32)
    ensures ParseSigned(PrintfD(x)) == Signed32(x)
    ensures ':' !in PrintfD(x)
    ensures x < 0x8000_0000 ==> PrintfD(x) == Decimal(x)
  {
    DigitsHaveNo(x, 10, ':');
    if x < 0x8000_0000 {
      DigitsRoundTrip(x, 10);
      DigitsHaveNo(x, 10, '-');
    } else {
      var m := 0x1_0000_0000 - x;
      DigitsRoundTrip(m, 10);
      DigitsHaveNo(m, 10, ':');
      assert PrintfD(x)[1..] == Decimal(m);
    }
  }

  lemma LineHead(idText: string, typeText: string, name: string, flagsText: string)
    requires ':' !in idText
    ensures var line := Line(idText, typeText, name, flagsText);
            Before(line, ':') == idText && |line| >= |idText| + 2
            && line[|idText| + 1..] == Tail(typeText, name, flagsText)
  {
    var tail := Tail(typeText, name, flagsText);
    assert Line(idText, typeText, name, flagsText) == idText + [':'] + tail;
    BeforeSplit(idText, ':', tail);
  }

  lemma LineTypeCodeOf(idText: string, typeText: string, name: string, flagsText: string)
    requires ':' !in idText
    ensures LineTypeCode(Line(idText, typeText, name, flagsText)) == TypeCode(Tail(typeText, name, flagsText)[1..])
  {
    var line := Line(idText, typeText, name, flagsText);
    LineHead(idText, typeText, name, flagsText);
    assert line[|idText| + 2..] == Tail(typeText, name, flagsText)[1..];
  }

  lemma LineTypeText(idText: string, typeText: string, name: string, flagsText: string)
    requires ':' !in idText
    ensures var line := Line(idText, typeText, name, flagsText);
            var at := |idText| + 2;
            at + |typeText| <= |line| && line[at..at + |typeText|] == typeText
  {
    var line := Line(idText, typeText, name, flagsText);
    var tail := Tail(typeText, name, flagsText);
    var at := |idText| + 2;
    LineHead(idText, typeText, name, flagsText);
    assert tail[1..][..|typeText|] == typeText;
    assert line[at..at + |typeText|] == tail[1..][..|typeText|];
  }

  lemma LineEnd(idText: string, typeText: string, name: string, flagsText: string)
    requires 'x' !in flagsText
    ensures AfterLast(Line(idText, typeText, name, flagsText), 'x') == flagsText
  {
    var front := idText + ":" + " " + typeText + "  " + "name: " + name + "  " + "flags 0";
    assert Line(idText, typeText, name, flagsText) == front + ['x'] + flagsText;
    AfterLastSplit(front, 'x', flagsText);
  }

  /** The id at the head of a report line reads back as the `%d` value of the map id. */
  lemma {:induction false} LineIdRoundTrip(id: U32, info: MapInfo, names: TypeNames)
    ensures LineId(FormatLine(id, info, names)) == Signed32(id)
    ensures id < 0x8000_0000 ==> LineId(FormatLine(id, info, names)) == id
  {
    PrintfDReadsBack(id);
    LineHead(PrintfD(id), TypeText(info.mapType, names), info.name, Hex(info.flags));
  }

  /** The hex digits at the end of a report line read back as the map's flags, whatever its name holds. */
  lemma {:induction false} LineFlagsRoundTrip(id: U32, info: MapInfo, names: TypeNames)
    ensures LineFlags(FormatLine(id, info, names)) == info.flags
  {
    DigitsHaveNo(info.flags, 16, 'x');
    LineEnd(PrintfD(id), TypeText(info.mapType, names), info.name, Hex(info.flags));
    DigitsRoundTrip(info.flags, 16);
  }

  lemma {:induction false} TypeCodeOfNumber(digits: string, name: string, flagsText: string)
    requires ' ' !in digits
    ensures TypeCode(Tail("type " + digits, name, flagsText)[1..]) == Some(ParseDigits(digits, 10))
  {
    var after := " " + "name: " + name + "  " + "flags 0" + ['x'] + flagsText;
    var rest := Tail("type " + digits, name, flagsText)[1..];
    assert rest == "type " + (digits + [' '] + after);
    assert rest[5..] == digits + [' '] + after;
    BeforeSplit(digits, ' ', after);
  }

  /**
   A map type without a known name is shown as `type <N>`, and N reads back
   as the raw numeric type.
   */
  lemma {:induction false} UnknownTypeFallback(id: U32, info: MapInfo, names: TypeNames)
    requires info.mapType !in names
    ensures LineTypeCode(FormatLine(id, info, names)) == Some(info.mapType as nat)
  {
    var d := Decimal(info.mapType);
    PrintfDReadsBack(id);
    LineTypeCodeOf(PrintfD(id), "type " + d, info.name, Hex(info.flags));
    DigitsHaveNo(info.mapType, 10, ' ');
    TypeCodeOfNumber(d, info.name, Hex(info.flags));
    DigitsRoundTrip(info.mapType, 10);
  }

  /** A line splits into the id text, the fixed text and fields up to the flags, and the flags text. */
  lemma LineParts(idText: string, typeText: string, name: string, flagsText: string)
    ensures var line := Line(idText, typeText, name, flagsText);
            && |line| == |idText| + |typeText| + |name| + |flagsText| + 20
            && line[..|idText|] == idText
            && line[|line| - |flagsText|..] == flagsText
  {
    var line := Line(idText, typeText, name, flagsText);
    var middle := ":" + Tail(typeText, name, "");
    assert line == idText + middle + flagsText;
  }

  /** Where the name sits in a line: right after the label `  name: ` that follows the type text. */
  lemma LineName(idText: string, typeText: string, name: string, flagsText: string)
    ensures var line := Line(idText, typeText, name, flagsText);
            var at := |idText| + 2 + |typeText| + 8;
            && at + |name| <= |line|
            && line[at - 8..at] == "  name: "
            && line[at..at + |name|] == name
  {
    var line := Line(idText, typeText, name, flagsText);
    var front := idText + ":" + " " + typeText + "  " + "name: ";
    var back := "  " + "flags 0" + ['x'] + flagsText;
    assert line == front + name + back;
    assert front[|front| - 8..] == "  name: ";
  }

  /**
   The map's name is printed after the type text and the label `  name: `,
   as it is, whatever characters it holds.
   */
  lemma {:induction false} NameInLine(id: U32, info: MapInfo, names: TypeNames)
    ensures var line := FormatLine(id, info, names);
            var at := |PrintfD(id)| + 2 + |TypeText(info.mapType, names)| + 8;
            && at + |info.name| <= |line|
            && line[at - 8..at] == "  name: "
            && line[at..at + |info.name|] == info.name
  {
    LineName(PrintfD(id), TypeText(info.mapType, names), info.name, Hex(info.flags));
  }

  /** A map type with a known name shows that name right after the id, in place of `type <N>`. */
  lemma {:induction false} KnownTypeName(id: U32, info: MapInfo, names: TypeNames)
    requires info.mapType in names
    ensures var line := FormatLine(id, info, names);
            var at := |PrintfD(id)| + 2;
            at + |names[info.mapType]| <= |line| && line[at..at + |names[info.mapType]|] == names[info.mapType]
  {
    PrintfDReadsBack(id);
    LineTypeText(PrintfD(id), names[info.mapType], info.name, Hex(info.flags));
  }

  /** Different map ids never render to the same line. */
  lemma DistinctIdsDistinctLines(id1: U32, info1: MapInfo, id2: U32, info2: MapInfo, names: TypeNames)
    requires id1 != id2
    ensures FormatLine(id1, info1, names) != FormatLine(id2, info2, names)
  {
    LineIdRoundTrip(id1, info1, names);
    LineIdRoundTrip(id2, info2, names);
  }
}
