/** Printing a list of frame sizes as "640x480,800x480" and parsing it back. */
module SizeLists {

  const NO_ERROR := 0
  const BAD_VALUE := -22

  type Int32 = n: int | -0x8000_0000 <= n < 0x8000_0000

  datatype Dimension = Dimension(width: Int32, height: Int32)

  /** What the parser pushes: a size it read, or variables it never set. */
  datatype Slot = Read(dim: Dimension) | Uninitialised

  // ---------- decimal numerals ----------

  predicate IsDigit(c: char) { '0' <= c <= '9' }

  predicate IsSpace(c: char) { c == ' ' || 9 as char <= c <= 13 as char }

  function DecNat(n: nat): (s: string)
    ensures s != [] && forall c | c in s :: IsDigit(c)
  {
    if n < 10 then [(('0' as int) + n) as char]
    else DecNat(n / 10) + [(('0' as int) + n % 10) as char]
  }

  function Magnitude(n: int): nat { if n < 0 then -n else n }

  // printf's %d
  function Dec(n: int): string {
    (if n < 0 then "-" else "") + DecNat(Magnitude(n))
  }

  function NumberOf(s: string): int {
    if s == [] then 0 else 10 * NumberOf(s[..|s| - 1]) + (s[|s| - 1] as int - '0' as int)
  }

  lemma {:induction false} NumberOfDec(n: nat)
    ensures NumberOf(DecNat(n)) == n
  {
    if n >= 10 {
      NumberOfDec(n / 10);
      assert DecNat(n)[..|DecNat(n)| - 1] == DecNat(n / 10);
    } else {
      assert DecNat(n)[..0] == [];
    }
  }

  function Pow10(k: nat): nat { if k == 0 then 1 else 10 * Pow10(k - 1) }

  lemma {:induction false} DecLength(n: nat, k: nat)
    requires 0 < k && n < Pow10(k)
    ensures |DecNat(n)| <= k
  {
    if n >= 10 {
      DecLength(n / 10, k - 1);
    }
  }

  // ---------- strtol, base 10 ----------

  function SpaceRun(s: string): (k: nat)
    ensures k <= |s|
  {
    if s == [] || !IsSpace(s[0]) then 0 else 1 + SpaceRun(s[1..])
  }

  function DigitRun(s: string): (k: nat)
    ensures k <= |s|
  {
    if s == [] || !IsDigit(s[0]) then 0 else 1 + DigitRun(s[1..])
  }

  // long is 32 bits wide on this target
  function Clamp(n: int): Int32 {
    if n < -0x8000_0000 then -0x8000_0000 else if n > 0x7fff_ffff then 0x7fff_ffff else n
  }

  /** The value, and the number of characters used: none if there is no numeral. */
  function StrToL(s: string): (r: (Int32, nat))
    ensures r.1 <= |s|
  {
    var start := SpaceRun(s);
    var signed := start < |s| && (s[start] == '-' || s[start] == '+');
    var d := if signed then start + 1 else start;
    var run := DigitRun(s[d..]);
    if run == 0 then (0, 0)
    else
      var n := NumberOf(s[d..d + run]);
      (Clamp(if signed && s[start] == '-' then -n else n), d + run)
  }

  lemma {:induction false} DigitRunStops(digits: string, rest: string)
    requires forall c | c in digits :: IsDigit(c)
    requires rest == [] || !IsDigit(rest[0])
    ensures DigitRun(digits + rest) == |digits|
  {
    if digits == [] {
      assert digits + rest == rest;
    } else {
      assert (digits + rest)[1..] == digits[1..] + rest;
      DigitRunStops(digits[1..], rest);
    }
  }

  lemma StrToLUnsigned(digits: string, rest: string)
    requires digits != [] && DigitRun(digits + rest) == |digits|
    ensures StrToL(digits + rest) == (Clamp(NumberOf(digits)), |digits|)
  {
    var s := digits + rest;
    assert IsDigit(s[0]);
    hide NumberOf, DigitRun, Clamp;
    assert SpaceRun(s) == 0 && s[0..] == s && s[0..|digits|] == digits;
  }

  lemma StrToLNegative(digits: string, rest: string)
    requires digits != [] && DigitRun(digits + rest) == |digits|
    ensures StrToL("-" + (digits + rest)) == (Clamp(-NumberOf(digits)), 1 + |digits|)
  {
    hide *;
    BehindSign(digits, rest);
    StrToLSigned("-" + (digits + rest), |digits|);
  }

  lemma BehindSign(digits: string, rest: string)
    ensures var t := "-" + (digits + rest);
            t[0] == '-' && t[1..] == digits + rest && t[1..1 + |digits|] == digits
  {
  }

  lemma StrToLSigned(t: string, run: nat)
    requires t != [] && t[0] == '-' && DigitRun(t[1..]) == run > 0
    ensures StrToL(t) == (Clamp(-NumberOf(t[1..1 + run])), 1 + run)
  {
    hide DigitRun, NumberOf, Clamp;
    assert SpaceRun(t) == 0;
  }

  /** strtol reads back what printf printed, and stops right behind it. */
  lemma StrToLOfDec(n: Int32, rest: string)
    requires rest == [] || !IsDigit(rest[0])
    ensures StrToL(Dec(n) + rest) == (n, |Dec(n)|)
  {
    var digits := DecNat(Magnitude(n));
    NumberOfDec(Magnitude(n));
    DigitRunStops(digits, rest);
    assert Clamp(n) == n;
    DecIs(n, rest);
    hide *;
    if n < 0 {
      StrToLNegative(digits, rest);
    } else {
      StrToLUnsigned(digits, rest);
    }
  }

  lemma DecIs(n: int, rest: string)
    ensures n < 0 ==> Dec(n) + rest == "-" + (DecNat(-n) + rest) && |Dec(n)| == 1 + |DecNat(-n)|
    ensures n >= 0 ==> Dec(n) == DecNat(n)
    ensures Magnitude(n) == if n < 0 then -n else n
  {
    hide DecNat;
  }

  predicate AllDigits(s: string) { s != [] && forall c | c in s :: IsDigit(c) }

  predicate AllBlank(s: string) { forall k | 0 <= k < |s| :: IsSpace(s[k]) }

  predicate IsSign(sign: string) { sign == "" || sign == "+" || sign == "-" }

  /** A text that starts as a numeral: blanks, a sign or none, and digits that end where the first other
      character is.
   */
  predicate Numeral(s: string, blanks: nat, sign: string, digits: string) {
    && IsSign(sign) && AllDigits(digits) && blanks + |sign| + |digits| <= |s|
    && AllBlank(s[..blanks])
    && s[blanks..blanks + |sign|] == sign
    && s[blanks + |sign|..blanks + |sign| + |digits|] == digits
    && (blanks + |sign| + |digits| < |s| ==> !IsDigit(s[blanks + |sign| + |digits|]))
  }

  /** strtol reads it whole, and cuts a value beyond 32 bits to the nearest that fits. */
  lemma StrToLReads(s: string, blanks: nat, sign: string, digits: string)
    requires Numeral(s, blanks, sign, digits)
    ensures StrToL(s) ==
            (Nearest(if sign == "-" then -NumberOf(digits) else NumberOf(digits)), blanks + |sign| + |digits|)
  {
    hide *;
    SignIs(s, blanks, sign, digits);
    BlanksEnd(s, blanks, sign, digits);
    DigitsEnd(s, blanks, sign, digits);
    StrToLParts(s, blanks, blanks + |sign|, |digits|);
    NearestIs(s[blanks] == '-', NumberOf(digits));
  }

  lemma NearestIs(negative: bool, n: int)
    ensures Clamp(if negative then -n else n) == Nearest(if negative then -n else n)
  {
  }

  /** The nearest number of 32 bits. */
  function Nearest(n: int): (r: int)
    ensures -0x8000_0000 <= r <= 0x7fff_ffff
  {
    if n < -0x8000_0000 then -0x8000_0000 else if n > 0x7fff_ffff then 0x7fff_ffff else n
  }

  lemma DigitsEnd(s: string, blanks: nat, sign: string, digits: string)
    requires Numeral(s, blanks, sign, digits)
    ensures blanks + |sign| <= |s| && DigitRun(s[blanks + |sign|..]) == |digits| > 0
    ensures blanks + |sign| + |digits| <= |s| && s[blanks + |sign|..blanks + |sign| + |digits|] == digits
  {
    var d := blanks + |sign|;
    assert s[d..] == digits + s[d + |digits|..];
    DigitRunStops(digits, s[d + |digits|..]);
  }

  lemma BlanksEnd(s: string, blanks: nat, sign: string, digits: string)
    requires Numeral(s, blanks, sign, digits)
    ensures SpaceRun(s) == blanks < |s|
  {
    SignIs(s, blanks, sign, digits);
    assert s == s[..blanks] + s[blanks..];
    SpaceRunStops(s[..blanks], s[blanks..]);
  }

  lemma SignIs(s: string, blanks: nat, sign: string, digits: string)
    requires Numeral(s, blanks, sign, digits)
    ensures blanks < |s| && !IsSpace(s[blanks]) && (s[blanks] == '-' <==> sign == "-")
    ensures |sign| == if s[blanks] == '-' || s[blanks] == '+' then 1 else 0
  {
    assert IsDigit(digits[0]) && s[blanks + |sign|] == digits[0];
    if sign != "" {
      assert s[blanks] == s[blanks..blanks + |sign|][0] == sign[0];
    }
  }

  lemma {:induction false} SpaceRunStops(blanks: string, rest: string)
    requires AllBlank(blanks) && rest != [] && !IsSpace(rest[0])
    ensures SpaceRun(blanks + rest) == |blanks|
  {
    if blanks == [] {
      assert blanks + rest == rest;
    } else {
      assert (blanks + rest)[1..] == blanks[1..] + rest;
      SpaceRunStops(blanks[1..], rest);
    }
  }

  lemma StrToLParts(s: string, start: nat, d: nat, run: nat)
    requires SpaceRun(s) == start < |s| && d == start + (if s[start] == '-' || s[start] == '+' then 1 else 0)
    requires d <= |s| && DigitRun(s[d..]) == run > 0
    ensures StrToL(s) ==
            (Clamp(if s[start] == '-' then -NumberOf(s[d..d + run]) else NumberOf(s[d..d + run])), d + run)
  {
    hide SpaceRun, DigitRun, NumberOf, Clamp;
  }

  // ---------- pairs and lists ----------

  function CharAt(s: string, i: nat): char { if i < |s| then s[i] else '\0' }

  /** parse_pair: on failure neither the values nor the end pointer are set. */
  datatype Pair = Pair(dim: Dimension, end: nat) | NoPair

  function ParsePair(s: string, delim: char): (p: Pair)
    requires delim != '\0'
    ensures p.Pair? ==> p.end <= |s|
  {
    var (w, e1) := StrToL(s);
    if CharAt(s, e1) != delim then NoPair
    else
      var (h, e2) := StrToL(s[e1 + 1..]);
      Pair(Dimension(w, h), e1 + 1 + e2)
  }

  /** One turn of the parsing loop: an invalid character ends it without a size; a size may be
      the last one, or be followed by more text. */
  datatype Item = Invalid | Last(slot: Slot) | More(slot: Slot, next: nat)

  function NextItem(s: string): (r: Item)
    ensures r.More? ==> 0 < r.next <= |s|
  {
    var p := ParsePair(s, 'x');
    var end := if p.Pair? then p.end else 0;
    var slot := if p.Pair? then Read(p.dim) else Uninitialised;
    var c := CharAt(s, end);
    if c != ',' && c != '\0' then Invalid
    else if c == '\0' then Last(slot)
    else More(slot, end + 1)
  }

  function ParseSizes(s: string): seq<Slot>
    decreases |s|
  {
    match NextItem(s)
    case Invalid => []
    case Last(slot) => [slot]
    case More(slot, next) => [slot] + ParseSizes(s[next..])
  }

  function SizeText(d: Dimension): string { Dec(d.width) + "x" + Dec(d.height) }

  function SizesText(dims: seq<Dimension>): string {
    if dims == [] then ""
    else if |dims| == 1 then SizeText(dims[0])
    else SizeText(dims[0]) + ("," + SizesText(dims[1..]))
  }

  lemma {:induction false} SizesTextSnoc(dims: seq<Dimension>, d: Dimension)
    requires dims != []
    ensures SizesText(dims + [d]) == SizesText(dims) + ("," + SizeText(d))
  {
    hide SizeText;
    if |dims| == 1 {
      assert (dims + [d])[1..] == [d];
    } else {
      SizesTextSnoc(dims[1..], d);
      assert (dims + [d])[1..] == dims[1..] + [d];
      assert SizeText(dims[0]) + ("," + (SizesText(dims[1..]) + ("," + SizeText(d)))) ==
             (SizeText(dims[0]) + ("," + SizesText(dims[1..]))) + ("," + SizeText(d));
    }
  }

  lemma PairOfText(d: Dimension, rest: string)
    requires rest == [] || rest[0] == ','
    ensures ParsePair(SizeText(d) + rest, 'x') == Pair(d, |SizeText(d)|)
  {
    PairBefore(d, rest);
  }

  /** A size is read whatever follows it that is not a digit. */
  lemma PairBefore(d: Dimension, rest: string)
    requires rest == [] || !IsDigit(rest[0])
    ensures ParsePair(SizeText(d) + rest, 'x') == Pair(d, |SizeText(d)|)
  {
    hide Dec, StrToL;
    var s := SizeText(d) + rest;
    var tail := "x" + (Dec(d.height) + rest);
    assert s == Dec(d.width) + tail;
    StrToLOfDec(d.width, tail);
    assert s[|Dec(d.width)|] == 'x';
    assert s[|Dec(d.width)| + 1..] == Dec(d.height) + rest;
    StrToLOfDec(d.height, rest);
  }

  function AllRead(dims: seq<Dimension>): seq<Slot> {
    if dims == [] then [] else [Read(dims[0])] + AllRead(dims[1..])
  }

  lemma ItemOfText(d: Dimension, tail: string)
    ensures NextItem(SizeText(d) + ("," + tail)) == More(Read(d), |SizeText(d)| + 1)
    ensures NextItem(SizeText(d)) == Last(Read(d))
  {
    hide SizeText, ParsePair;
    PairOfText(d, "," + tail);
    PairOfText(d, "");
    assert SizeText(d) + "" == SizeText(d);
    assert (SizeText(d) + ("," + tail))[|SizeText(d)|] == ',';
  }

  lemma {:induction false} RoundTrip(dims: seq<Dimension>)
    requires dims != []
    ensures ParseSizes(SizesText(dims)) == AllRead(dims)
  {
    hide SizeText, NextItem;
    var head := SizeText(dims[0]);
    if |dims| == 1 {
      ItemOfText(dims[0], "");
      assert AllRead(dims[1..]) == [];
    } else {
      var tail := SizesText(dims[1..]);
      ItemOfText(dims[0], tail);
      RoundTrip(dims[1..]);
      assert (head + ("," + tail))[|head| + 1..] == tail;
    }
  }

  /** Parsing what was printed gives the list back exactly when it is not empty. The empty
      text yields one size made of variables that were never set: the loop looks for -1,
      while parse_pair reports failure as BAD_VALUE. */
  lemma RoundTripIff(dims: seq<Dimension>)
    ensures ParseSizes(SizesText(dims)) == AllRead(dims) <==> dims != []
    ensures ParseSizes("") == [Uninitialised]
  {
    assert StrToL("") == (0, 0);
    if dims != [] {
      RoundTrip(dims);
    }
  }

  /** Widths come first. */
  lemma ExampleSizes()
    ensures SizesText([Dimension(640, 480), Dimension(72, 8)]) == "640x480,72x8"
  {
    DecOfDigits();
    assert SizeText(Dimension(640, 480)) == "640x480" && SizeText(Dimension(72, 8)) == "72x8";
    hide SizeText;
  }

  lemma DecOfDigits()
    ensures Dec(640) == "640" && Dec(480) == "480" && Dec(72) == "72" && Dec(8) == "8"
  {
    assert DecNat(6) == "6" && DecNat(4) == "4" && DecNat(7) == "7";
    assert DecNat(64) == DecNat(6) + "4" && DecNat(48) == DecNat(4) + "8";
  }

  /** A text with a foreign character behind a size loses that size, and keeps those before it. */
  lemma {:induction false} SpoiltSizeIsLost(dims: seq<Dimension>, bad: string)
    requires dims != [] && bad != [] && !IsDigit(bad[0]) && bad[0] != ',' && bad[0] != '\0'
    ensures ParseSizes(SizesText(dims) + bad) == AllRead(dims[..|dims| - 1])
  {
    hide SizeText, NextItem;
    var head := SizeText(dims[0]);
    if |dims| == 1 {
      SpoiltItem(dims[0], bad);
    } else {
      var tail := SizesText(dims[1..]) + bad;
      assert SizesText(dims) + bad == head + ("," + tail);
      ItemOfText(dims[0], tail);
      SpoiltSizeIsLost(dims[1..], bad);
      assert (head + ("," + tail))[|head| + 1..] == tail;
      assert dims[1..][..|dims[1..]| - 1] == dims[..|dims| - 1][1..];
    }
  }

  lemma SpoiltItem(d: Dimension, bad: string)
    requires bad != [] && !IsDigit(bad[0]) && bad[0] != ',' && bad[0] != '\0'
    ensures NextItem(SizeText(d) + bad) == Invalid
  {
    PairBefore(d, bad);
    hide SizeText, ParsePair;
    assert (SizeText(d) + bad)[|SizeText(d)|] == bad[0];
  }

  // ---------- the loops ----------

  // snprintf into a buffer of `size` characters, the last of them for the terminator
  function Snprintf(text: string, size: nat): string
    requires size > 0
  {
    if |text| < size then text else text[..size - 1]
  }

  lemma TextFits(d: Dimension)
    ensures |"," + SizeText(d)| < 32
  {
    assert Pow10(10) == 10 * Pow10(9) && Pow10(8) == 100 * Pow10(6) && Pow10(6) == 1000 * Pow10(3);
    assert Pow10(3) == 1000 && Pow10(10) == 10_000_000_000;
    DecLength(Magnitude(d.width), 10);
    DecLength(Magnitude(d.height), 10);
  }

  method CreateHfrSizesString(values: seq<Dimension>) returns (str: string)
    ensures str == SizesText(values)
  {
    hide SizeText;
    str := "";
    if |values| > 0 {
      TextFits(values[0]);
      str := str + Snprintf(SizeText(values[0]), 32);
    }
    var i := 1;
    while i < |values|
      invariant 1 <= i
      invariant if values == [] then str == "" else i <= |values| && str == SizesText(values[..i])
    {
      TextFits(values[i]);
      SizesTextSnoc(values[..i], values[i]);
      assert values[..i + 1] == values[..i] + [values[i]];
      str := str + Snprintf("," + SizeText(values[i]), 32);
      i := i + 1;
    }
    assert values != [] ==> values[..i] == values;
  }

  method ParsePairAt(str: string, start: nat, delim: char) returns (rc: int, dim: Dimension, end: nat)
    requires start <= |str| && delim != '\0'
    ensures var p := ParsePair(str[start..], delim);
            if p.Pair? then rc == NO_ERROR && dim == p.dim && end == start + p.end
            else rc == BAD_VALUE && end == start
  {
    hide StrToL;
    var w, e1 := StrToL(str[start..]).0, StrToL(str[start..]).1;
    if CharAt(str[start..], e1) != delim {
      return BAD_VALUE, Dimension(0, 0), start;
    }
    assert str[start..][e1 + 1..] == str[start + e1 + 1..];
    var h, e2 := StrToL(str[start + e1 + 1..]).0, StrToL(str[start + e1 + 1..]).1;
    return NO_ERROR, Dimension(w, h), start + e1 + 1 + e2;
  }

  // the body of the loop
  method ParseItem(str: string, start: nat) returns (item: Item)
    requires start <= |str|
    ensures item == NextItem(str[start..])
  {
    hide ParsePair;
    var success, dim, end := ParsePairAt(str, start, 'x');
    var c := CharAt(str, end);
    assert c == CharAt(str[start..], end - start);
    if success == -1 || (c != ',' && c != '\0') {
      return Invalid;
    }
    var slot := if success == NO_ERROR then Read(dim) else Uninitialised;
    if c == '\0' {
      return Last(slot);
    }
    return More(slot, end + 1 - start);
  }

  method ParseSizesList(sizesStr: string) returns (sizes: seq<Slot>)
    ensures sizes == ParseSizes(sizesStr)
  {
    hide NextItem;
    sizes := [];
    var p := 0;
    while true
      invariant p <= |sizesStr|
      invariant sizes + ParseSizes(sizesStr[p..]) == ParseSizes(sizesStr)
      decreases |sizesStr| - p
    {
      var item := ParseItem(sizesStr, p);
      match item
      case Invalid => return;
      case Last(slot) => return sizes + [slot];
      case More(slot, next) =>
        assert sizesStr[p..][next..] == sizesStr[p + next..];
        sizes, p := sizes + [slot], p + next;
    }
  }
}
