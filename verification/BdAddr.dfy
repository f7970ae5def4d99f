/** Turning a Bluetooth device address of six bytes into "XX:XX:XX:XX:XX:XX", in place. */
module BdAddr {
  import opened Common

  const BD_ADDR_LEN := 6
  const BD_ADDR_STR_LEN := 18

  type Byte = b: int | 0 <= b < 256

  const HEX_TABLE := "0123456789ABCDEF"

  function HexDigit(n: nat): char
    requires n < 16
  {
    HEX_TABLE[n]
  }

  function HexValue(c: char): int {
    if '0' <= c <= '9' then c as int - '0' as int
    else if 'A' <= c <= 'F' then c as int - 'A' as int + 10
    else -1
  }

  lemma HexRoundTrip(n: nat)
    requires n < 16
    ensures HexValue(HexDigit(n)) == n
    ensures HexDigit(n) !in {'.', ':', '\0'}
  {
  }

  // ---------- what the program is for ----------

  /** The byte spelled by the i-th pair of a formatted address. */
  function PairValue(text: string, i: nat): int
    requires 3 * i + 1 < |text|
  {
    16 * HexValue(text[3 * i]) + HexValue(text[3 * i + 1])
  }

  /** Six pairs of digits that spell the bytes, with a separator between them. */
  predicate Spells(text: string, bytes: seq<Byte>, sep: char)
    requires |bytes| == BD_ADDR_LEN
  {
    && |text| == BD_ADDR_STR_LEN - 1
    && (forall i | 0 <= i < BD_ADDR_LEN - 1 :: text[3 * i + 2] == sep)
    && (forall i | 0 <= i < BD_ADDR_LEN :: HexValue(text[3 * i]) >= 0 && HexValue(text[3 * i + 1]) >= 0)
    && (forall i | 0 <= i < BD_ADDR_LEN :: PairValue(text, i) == bytes[i])
  }

  lemma HexValueInjective(c: char, d: char)
    requires HexValue(c) == HexValue(d) >= 0
    ensures c == d && HexValue(c) < 16
  {
  }

  /** One text spells given bytes, so Spells leaves the formatter no freedom. */
  lemma SpellingUnique(a: string, b: string, bytes: seq<Byte>, sep: char)
    requires |bytes| == BD_ADDR_LEN && Spells(a, bytes, sep) && Spells(b, bytes, sep)
    ensures a == b
  {
    forall k | 0 <= k < |a| ensures a[k] == b[k] {
      var i := k / 3;
      if k % 3 == 2 {
        assert a[3 * i + 2] == sep == b[3 * i + 2];
      } else {
        assert PairValue(a, i) == PairValue(b, i);
        assert HexValue(a[3 * i]) == HexValue(b[3 * i]) && HexValue(a[3 * i + 1]) == HexValue(b[3 * i + 1]) by {
          assert 0 <= HexValue(a[3 * i + 1]) < 16 && 0 <= HexValue(b[3 * i + 1]) < 16;
        }
        HexValueInjective(a[3 * i], b[3 * i]);
        HexValueInjective(a[3 * i + 1], b[3 * i + 1]);
      }
    }
  }

  // ---------- C strings ----------

  function StrLen(buf: seq<char>): (n: nat)
    ensures n <= |buf|
  {
    if buf == [] || buf[0] == '\0' then 0 else 1 + StrLen(buf[1..])
  }

  lemma {:induction false} StrLenIs(buf: seq<char>, n: nat)
    requires n <= |buf| && (forall i | 0 <= i < n :: buf[i] != '\0') && (n < |buf| ==> buf[n] == '\0')
    ensures StrLen(buf) == n
  {
    if n > 0 {
      StrLenIs(buf[1..], n - 1);
    }
  }

  /** A buffer that holds a text and nothing but zeros behind it. */
  predicate Padded(buf: seq<char>, text: string) {
    && text <= buf
    && (forall k | 0 <= k < |text| :: text[k] != '\0')
    && (forall k | |text| <= k < |buf| :: buf[k] == '\0')
  }

  lemma PaddedLength(buf: seq<char>, text: string)
    requires Padded(buf, text)
    ensures StrLen(buf) == |text|
  {
    StrLenIs(buf, |text|);
  }

  // ---------- hexadecimal digits ----------

  predicate Octets(buf: seq<char>) { forall k | 0 <= k < |buf| :: buf[k] as int < 0x100 }

  /** unsigned chars */
  function BytesOf(buf: seq<char>): (b: seq<Byte>)
    requires Octets(buf)
    ensures |b| == |buf|
  {
    seq(|buf|, i requires 0 <= i < |buf| => buf[i] as int)
  }

  /** Two digits for each byte, high nibble first. */
  predicate HexOf(text: seq<char>, bytes: seq<Byte>) {
    && |text| == 2 * |bytes|
    && forall i | 0 <= i < |bytes| ::
         text[2 * i] == HexDigit(bytes[i] / 16) && text[2 * i + 1] == HexDigit(bytes[i] % 16)
  }

  method HexaToAscii(hexa: array<char>, ascii: array<char>, nHexLen: nat)
    requires hexa != ascii && hexa.Length >= nHexLen && ascii.Length > 2 * nHexLen && Octets(hexa[..nHexLen])
    modifies ascii
    ensures HexOf(ascii[..2 * nHexLen], BytesOf(hexa[..nHexLen])) && ascii[2 * nHexLen] == '\0'
    ensures forall k | 2 * nHexLen < k < ascii.Length :: ascii[k] == old(ascii[k])
  {
    ghost var bytes := BytesOf(hexa[..nHexLen]);
    var i, j := 0, 0;
    while i < nHexLen
      invariant 0 <= i <= nHexLen && j == 2 * i
      invariant forall k | 0 <= k < i ::
        ascii[2 * k] == HexDigit(bytes[k] / 16) && ascii[2 * k + 1] == HexDigit(bytes[k] % 16)
      invariant forall k | 2 * nHexLen < k < ascii.Length :: ascii[k] == old(ascii[k])
    {
      assert hexa[..nHexLen][i] == hexa[i];
      ascii[j] := HEX_TABLE[hexa[i] as int / 16];
      ascii[j + 1] := HEX_TABLE[hexa[i] as int % 16];
      i, j := i + 1, j + 2;
    }
    ascii[nHexLen * 2] := '\0';
  }

  lemma DigitsOnly(text: seq<char>, bytes: seq<Byte>)
    requires HexOf(text, bytes)
    ensures forall k | 0 <= k < |text| :: text[k] !in {'.', ':', '\0'}
  {
    forall k | 0 <= k < |text| ensures text[k] !in {'.', ':', '\0'} {
      var i := k / 2;
      assert text[2 * i] == HexDigit(bytes[i] / 16) && text[2 * i + 1] == HexDigit(bytes[i] % 16);
      HexRoundTrip(bytes[i] / 16);
      HexRoundTrip(bytes[i] % 16);
    }
  }

  // ---------- separators ----------

  /** One pass of the formatting: the 12 - 2 * i characters before the end of the text move up by one,
      over the terminator, and the separator goes before them. Nothing, if that is not all within the
      buffer.
   */
  function Pass(buf: seq<char>, sep: char, i: nat): (r: Option<seq<char>>)
    requires 1 <= i <= 5
    ensures r.Some? ==> |r.value| == |buf|
  {
    var pos, n := StrLen(buf), 12 - 2 * i;
    if pos < n || pos >= |buf| then None
    else Some(buf[..pos - n] + [sep] + buf[pos - n..pos] + buf[pos + 1..])
  }

  /** The passes from the i-th on. */
  function Formatted(buf: seq<char>, sep: char, i: nat): (r: Option<seq<char>>)
    requires 1 <= i <= 6
    ensures r.Some? ==> |r.value| == |buf|
    decreases 6 - i
  {
    if i == 6 then Some(buf)
    else
      var next := Pass(buf, sep, i);
      if next.None? then None else Formatted(next.value, sep, i + 1)
  }

  /** The k-th of twelve characters once `m` separators have been put in. */
  function Partly(text: string, sep: char, m: nat, k: nat): char
    requires |text| == 12 && m <= 5 && k < 12 + m
  {
    if k >= 3 * m then text[k - m]
    else if k % 3 == 2 then sep
    else text[2 * (k / 3) + k % 3]
  }

  function WithSeparators(text: string, sep: char, m: nat): (r: string)
    requires |text| == 12 && m <= 5
    ensures |r| == 12 + m
  {
    seq(12 + m, k requires 0 <= k < 12 + m => Partly(text, sep, m, k))
  }

  /** One pass makes a text one longer, and still zero-padded. */
  lemma PassLength(buf: seq<char>, text: string, sep: char, i: nat)
    requires Padded(buf, text) && sep != '\0' && 1 <= i <= 5
    ensures Pass(buf, sep, i).Some? <==> 12 - 2 * i <= |text| < |buf|
    ensures Pass(buf, sep, i).Some? ==>
              var n := 12 - 2 * i;
              Padded(Pass(buf, sep, i).value, text[..|text| - n] + [sep] + text[|text| - n..])
  {
    PaddedLength(buf, text);
    hide StrLen;
    if 12 - 2 * i <= |text| < |buf| {
      var at := |text| - (12 - 2 * i);
      var longer := text[..at] + [sep] + text[at..];
      assert Pass(buf, sep, i).value == longer + buf[|text| + 1..];
    }
  }

  /** The formatting stays within the buffer exactly for texts of ten to thirteen characters, and adds
      five to them.
   */
  lemma {:induction false} FormattedLength(buf: seq<char>, text: string, sep: char, i: nat)
    requires Padded(buf, text) && |buf| == BD_ADDR_STR_LEN && sep != '\0' && 1 <= i <= 6
    ensures Formatted(buf, sep, i).Some? <==> i == 6 || 12 - 2 * i <= |text| <= 12 + i
    ensures Formatted(buf, sep, i).Some? ==> StrLen(Formatted(buf, sep, i).value) == |text| + 6 - i
    decreases 6 - i
  {
    PaddedLength(buf, text);
    if i < 6 {
      PassLength(buf, text, sep, i);
      hide StrLen, Padded, Pass;
      if Pass(buf, sep, i).Some? {
        var at := |text| - (12 - 2 * i);
        FormattedLength(Pass(buf, sep, i).value, text[..at] + [sep] + text[at..], sep, i + 1);
      }
    }
  }

  /** Nine characters are shifted out in front. */
  lemma NineCharacters(sep: char)
    requires sep != '\0'
    ensures Formatted("123456789" + seq(9, _ => '\0'), sep, 1) == None
  {
    var buf := "123456789" + seq(9, _ => '\0');
    assert Padded(buf, "123456789");
    FormattedLength(buf, "123456789", sep, 1);
  }

  lemma NoSeparators(text: string, sep: char)
    requires |text| == 12
    ensures WithSeparators(text, sep, 0) == text
  {
  }

  /** Twelve characters with i - 1 separators: the pass puts the next one in its place. */
  lemma NextSeparator(text: string, sep: char, i: nat)
    requires |text| == 12 && 1 <= i <= 5
    ensures var t := WithSeparators(text, sep, i - 1);
            t[..3 * i - 1] + [sep] + t[3 * i - 1..] == WithSeparators(text, sep, i)
  {
  }

  lemma {:induction false} FormattedTwelve(buf: seq<char>, text: string, sep: char, i: nat)
    requires |text| == 12 && |buf| == BD_ADDR_STR_LEN && sep != '\0' && 1 <= i <= 6
    requires Padded(buf, WithSeparators(text, sep, i - 1))
    ensures Formatted(buf, sep, i).Some? && Padded(Formatted(buf, sep, i).value, WithSeparators(text, sep, 5))
    decreases 6 - i
  {
    hide Padded, Pass, WithSeparators;
    if i < 6 {
      PassLength(buf, WithSeparators(text, sep, i - 1), sep, i);
      NextSeparator(text, sep, i);
      FormattedTwelve(Pass(buf, sep, i).value, text, sep, i + 1);
    }
  }

  method FormattingBdAddr(szBDAddr: array<char>, cSep: char) returns (inBounds: bool)
    requires szBDAddr.Length == BD_ADDR_STR_LEN
    modifies szBDAddr
    ensures inBounds == Formatted(old(szBDAddr[..]), cSep, 1).Some?
    ensures inBounds ==> szBDAddr[..] == Formatted(old(szBDAddr[..]), cSep, 1).value
  {
    hide StrLen, Pass;
    for i := 1 to BD_ADDR_LEN
      invariant Formatted(szBDAddr[..], cSep, i) == Formatted(old(szBDAddr[..]), cSep, 1)
    {
      inBounds := OnePass(szBDAddr, cSep, i);
      if !inBounds { return; }
    }
    return true;
  }

  /** The inner loop, and the separator. A pass that would leave the buffer is not made. */
  method OnePass(sz: array<char>, cSep: char, i: nat) returns (inBounds: bool)
    requires 1 <= i <= 5
    modifies sz
    ensures inBounds == Pass(old(sz[..]), cSep, i).Some?
    ensures sz[..] == if inBounds then Pass(old(sz[..]), cSep, i).value else old(sz[..])
  {
    hide StrLen;
    var pos, n := StrLen(sz[..]), BD_ADDR_LEN * 2 - i * 2;
    if pos < n || pos >= sz.Length { return false; }
    ghost var buf := sz[..];
    InsertSeparator(sz, pos, n, cSep);
    PassIs(buf, sz[..], cSep, pos, n);
    return true;
  }

  lemma PassIs(buf: seq<char>, buf': seq<char>, sep: char, pos: nat, n: nat)
    requires n <= pos < |buf| == |buf'| && buf'[pos - n] == sep
    requires forall k | 0 <= k < pos - n || pos < k < |buf| :: buf'[k] == buf[k]
    requires forall k | pos - n < k <= pos :: buf'[k] == buf[k - 1]
    ensures buf' == buf[..pos - n] + [sep] + buf[pos - n..pos] + buf[pos + 1..]
  {
  }

  method InsertSeparator(sz: array<char>, pos: nat, n: nat, cSep: char)
    requires n <= pos < sz.Length
    modifies sz
    ensures sz[pos - n] == cSep
    ensures forall k | 0 <= k < pos - n || pos < k < sz.Length :: sz[k] == old(sz[k])
    ensures forall k | pos - n < k <= pos :: sz[k] == old(sz[k - 1])
  {
    var j := 0;
    while j < n
      invariant 0 <= j <= n
      invariant forall k | 0 <= k <= pos - j || pos < k < sz.Length :: sz[k] == old(sz[k])
      invariant forall k | pos - j < k <= pos :: sz[k] == old(sz[k - 1])
    {
      sz[pos - j] := sz[pos - j - 1];
      j := j + 1;
    }
    sz[pos - j] := cSep;
  }

  /** All five separators in twelve characters: six pairs, in order, with a separator between. */
  lemma FormattedPairs(text: string, sep: char, i: nat)
    requires |text| == 12 && i < BD_ADDR_LEN
    ensures var f := WithSeparators(text, sep, 5);
            && |f| == 17 && f[3 * i] == text[2 * i] && f[3 * i + 1] == text[2 * i + 1]
            && (i < 5 ==> f[3 * i + 2] == sep)
  {
  }

  /** If they are the digits of six bytes, the result spells the bytes. */
  lemma FormattedSpells(text: string, bytes: seq<Byte>, sep: char)
    requires |bytes| == BD_ADDR_LEN && HexOf(text, bytes)
    ensures Spells(WithSeparators(text, sep, 5), bytes, sep)
  {
    hide WithSeparators;
    var f := WithSeparators(text, sep, 5);
    forall i | 0 <= i < BD_ADDR_LEN
      ensures HexValue(f[3 * i]) == bytes[i] / 16 && HexValue(f[3 * i + 1]) == bytes[i] % 16
      ensures i < 5 ==> f[3 * i + 2] == sep
    {
      FormattedPairs(text, sep, i);
      HexRoundTrip(bytes[i] / 16);
      HexRoundTrip(bytes[i] % 16);
    }
    hide HexValue;
    FormattedPairs(text, sep, 0);
  }

  // ---------- loading and printing ----------

  datatype DataType = Hex | Ascii | Unset

  /** Where an address is read from, and what is there: the bytes of a file, or the value of a
      property, if it can be read.
   */
  datatype Source = File(content: Option<seq<char>>) | Property(value: Option<string>) | NoSource

  predicate SourceOk(src: Source) {
    && (src.File? && src.content.Some? ==> Octets(src.content.value))
    && (src.Property? && src.value.Some? ==> Octets(src.value.value) && '\0' !in src.value.value)
  }

  /** What readBDAddr puts at the beginning of the union, if it succeeds. */
  function Loaded(src: Source, t: DataType): (d: Option<seq<char>>)
    requires SourceOk(src)
    ensures d.Some? ==> Octets(d.value) && |d.value| <= if t.Hex? then BD_ADDR_LEN else BD_ADDR_STR_LEN
  {
    var size := if t.Hex? then BD_ADDR_LEN else BD_ADDR_STR_LEN;
    if t.Unset? then None
    else
      match src
      case NoSource => None
      case File(content) =>
        if content.None? || |content.value| < size then None else Some(content.value[..size])
      case Property(value) =>
        if value.None? || |value.value| >= size then None else Some(value.value + "\0")
  }

  /** The six bytes and the text share their storage, a C union. */
  class LoadedBDAddr {
    const sz: array<char>
    var nDataType: DataType

    ghost predicate Valid()
      reads this, sz
    {
      sz.Length == BD_ADDR_STR_LEN && Octets(sz[..])
    }

    /** As main sets it up, with memset. */
    constructor ()
      ensures Valid() && fresh(sz) && Padded(sz[..], "") && nDataType == Unset
    {
      sz := new char[BD_ADDR_STR_LEN](_ => '\0');
      nDataType := Unset;
    }

    method Store(data: seq<char>)
      requires Valid() && |data| <= BD_ADDR_STR_LEN && Octets(data)
      modifies sz
      ensures Valid() && sz[..] == data + old(sz[..])[|data|..]
    {
      for i := 0 to |data|
        invariant forall k | 0 <= k < i :: sz[k] == data[k]
        invariant forall k | i <= k < sz.Length :: sz[k] == old(sz[k])
      {
        sz[i] := data[i];
      }
    }

    /** read copies what there is even when it is too short; then the address is not used. */
    method ReadBDAddr(src: Source, t: DataType) returns (ok: bool)
      requires Valid() && SourceOk(src)
      modifies this, sz
      ensures Valid() && ok == Loaded(src, t).Some?
      ensures ok ==> nDataType == t && sz[..] == Loaded(src, t).value + old(sz[..])[|Loaded(src, t).value|..]
      ensures !ok ==> nDataType == old(nDataType)
    {
      ok := false;
      if t.Unset? { return; }
      var size := if t.Hex? then BD_ADDR_LEN else BD_ADDR_STR_LEN;
      match src {
        case NoSource =>
        case File(content) =>
          if content.Some? {
            var nRdCnt := if |content.value| < size then |content.value| else size;
            Store(content.value[..nRdCnt]);
            ok := nRdCnt == size;
          }
        case Property(value) =>
          if value.Some? && |value.value| < size {
            Store(value.value + "\0");
            ok := true;
          }
      }
      if ok { nDataType := t; }
    }

    /** The first half of writeBDAddr: six bytes become their twelve digits. */
    method ToAscii(ghost bytes: seq<Byte>) returns (ghost text: string)
      requires Valid() && nDataType.Hex? && bytes == BytesOf(sz[..6])
      modifies this, sz
      ensures Valid() && nDataType.Ascii? && HexOf(text, bytes) && Padded(sz[..], text)
    {
      var szTmp := new char[BD_ADDR_STR_LEN](_ => '\0');
      HexaToAscii(sz, szTmp, BD_ADDR_LEN);
      text := szTmp[..12];
      DigitsOnly(text, bytes);
      DigitsAreOctets(text, bytes);
      forall k | 0 <= k < BD_ADDR_STR_LEN {
        sz[k] := szTmp[k];
      }
      nDataType := Ascii;
    }

    /** What the buffer holds as text is formatted unless it is separated already, and printed. */
    method WriteAscii(cSeparator: char, bPrintOut: bool) returns (inBounds: bool, ok: bool, printed: string)
      requires Valid() && nDataType.Ascii?
      modifies sz
      ensures Prints(old(sz[..]), cSeparator, bPrintOut, inBounds, ok, printed)
      ensures !ok ==> printed == ""
    {
      hide StrLen, Formatted;
      inBounds, ok, printed := true, false, "";
      var text := sz[..StrLen(sz[..])];
      if '.' !in text && ':' !in text {
        inBounds := FormattingBdAddr(sz, cSeparator);
        if !inBounds { return; }
      }
      if bPrintOut && StrLen(sz[..]) == BD_ADDR_STR_LEN - 1 {
        ok, printed := true, sz[..BD_ADDR_STR_LEN - 1];
      }
    }

    method WriteBDAddr(toAscii: bool, cSeparator: char, bPrintOut: bool)
      returns (inBounds: bool, ok: bool, printed: string)
      requires Valid() && cSeparator != '\0'
      modifies this, sz
      ensures old(nDataType).Hex? && toAscii ==>
                && inBounds && ok == bPrintOut
                && (ok ==> Spells(printed, old(BytesOf(sz[..6])), cSeparator))
      ensures old(nDataType).Ascii? ==>
                Prints(old(sz[..]), cSeparator, bPrintOut, inBounds, ok, printed)
      ensures old(nDataType).Unset? || (old(nDataType).Hex? && !toAscii) ==> inBounds && !ok
      ensures !ok ==> printed == ""
    {
      inBounds, ok, printed := true, false, "";
      hide StrLen, Padded, WithSeparators, HexOf, Spells, Prints;
      ghost var bytes, digits, hex := BytesOf(sz[..6]), "", nDataType.Hex?;
      if toAscii && nDataType.Hex? {
        digits := ToAscii(bytes);
      }
      ghost var buf := sz[..];
      if nDataType.Ascii? {
        inBounds, ok, printed := WriteAscii(cSeparator, bPrintOut);
        if hex { DigitsPrint(buf, digits, bytes, cSeparator, bPrintOut, inBounds, ok, printed); }
      }
    }
  }

  predicate Separated(text: string) { '.' in text || ':' in text }

  /** What printing a buffer comes to: its text as it is, if it is separated, and else formatted;
      either way it has to make seventeen characters. Nothing is said once the formatting has left
      the buffer.
   */
  predicate Prints(buf: seq<char>, sep: char, bPrintOut: bool, inBounds: bool, ok: bool, printed: string) {
    var after := if Separated(buf[..StrLen(buf)]) then Some(buf) else Formatted(buf, sep, 1);
    && inBounds == after.Some?
    && (inBounds ==>
          && ok == (bPrintOut && StrLen(after.value) == 17)
          && (ok ==> printed == after.value[..17]))
  }

  /** For a zero-padded text: it is printed as it is, if it is separated and has seventeen characters;
      it is printed with separators, if it has none and twelve; and otherwise not at all.
   */
  lemma PrintsText(buf: seq<char>, text: string, sep: char, bPrintOut: bool, inBounds: bool, ok: bool, printed: string)
    requires |buf| == BD_ADDR_STR_LEN && Padded(buf, text) && sep != '\0'
    requires Prints(buf, sep, bPrintOut, inBounds, ok, printed)
    ensures inBounds <==> Separated(text) || 10 <= |text| <= 13
    ensures inBounds ==> (ok <==> bPrintOut && |text| == if Separated(text) then 17 else 12)
    ensures inBounds && ok ==> printed == if Separated(text) then text else WithSeparators(text, sep, 5)
  {
    PaddedPrefix(buf, text);
    FormattedLength(buf, text, sep, 1);
    if |text| == 12 {
      NoSeparators(text, sep);
      FormattedTwelve(buf, text, sep, 1);
      if Formatted(buf, sep, 1).Some? {
        PaddedPrefix(Formatted(buf, sep, 1).value, WithSeparators(text, sep, 5));
      }
    }
  }

  lemma DigitsAreOctets(text: string, bytes: seq<Byte>)
    requires HexOf(text, bytes)
    ensures Octets(text)
  {
    forall k | 0 <= k < |text| ensures text[k] as int < 0x100 {
      var i := k / 2;
      assert text[2 * i] == HexDigit(bytes[i] / 16) && text[2 * i + 1] == HexDigit(bytes[i] % 16);
    }
  }

  lemma PaddedPrefix(buf: seq<char>, text: string)
    requires Padded(buf, text)
    ensures buf[..|text|] == text && StrLen(buf) == |text|
  {
    PaddedLength(buf, text);
  }

  /** The digits of six bytes are printed as the text that spells them. */
  lemma DigitsPrint(buf: seq<char>, digits: string, bytes: seq<Byte>, sep: char,
                    bPrintOut: bool, inBounds: bool, ok: bool, printed: string)
    requires |buf| == BD_ADDR_STR_LEN && Padded(buf, digits) && sep != '\0'
    requires |bytes| == BD_ADDR_LEN && HexOf(digits, bytes)
    requires Prints(buf, sep, bPrintOut, inBounds, ok, printed)
    ensures inBounds && ok == bPrintOut && (ok ==> Spells(printed, bytes, sep))
  {
    DigitsOnly(digits, bytes);
    assert !Separated(digits);
    FormattedSpells(digits, bytes, sep);
    hide Prints, WithSeparators, Spells, Padded, HexOf;
    PrintsText(buf, digits, sep, bPrintOut, inBounds, ok, printed);
  }

  /** main: load an address from where the arguments say, and print it with colons. */
  method LoadAndPrint(src: Source, t: DataType, bPrintOut: bool)
    returns (inBounds: bool, ok: bool, printed: string)
    requires SourceOk(src)
    ensures t.Unset? || src.NoSource? ==> inBounds && !ok
    ensures src.File? ==> FromFile(src.content, t, bPrintOut, inBounds, ok, printed)
    ensures src.Property? ==> FromProperty(src.value, t, bPrintOut, inBounds, ok, printed)
  {
    hide Prints, Spells, Padded, StrLen;
    var loaded := new LoadedBDAddr();
    ZeroBuffer(loaded.sz[..]);
    ok := loaded.ReadBDAddr(src, t);
    if !ok {
      inBounds, printed := true, "";
      return;
    }
    inBounds, ok, printed := loaded.WriteBDAddr(true, ':', bPrintOut);
    hide HexBytes, InBuffer;
    if src.File? {
      LoadedFile(src.content.value, t);
    } else {
      LoadedProperty(src.value.value, t);
      if t.Ascii? {
        PrintsText(InBuffer(src.value.value + "\0"), src.value.value, ':', bPrintOut, inBounds, ok, printed);
      }
    }
  }

  /** From a file: its first six bytes are spelled out, or its first eighteen are a text; a shorter file
      is refused.
   */
  predicate FromFile(content: Option<seq<char>>, t: DataType, bPrintOut: bool, inBounds: bool, ok: bool,
                     printed: string)
    requires content.Some? ==> Octets(content.value)
  {
    if content.None? || |content.value| < (if t.Hex? then 6 else 18) then inBounds && !ok
    else
      && (t.Hex? ==>
           inBounds && ok == bPrintOut && (ok ==> Spells(printed, BytesOf(content.value[..6]), ':')))
      && (t.Ascii? ==> Prints(content.value[..18], ':', bPrintOut, inBounds, ok, printed))
  }

  /** From a property: fewer than six characters are bytes, with zeros behind them; fewer than eighteen
      are a text, printed as it is if it is separated and has seventeen characters, and with colons if
      it has twelve; more are refused.
   */
  predicate FromProperty(value: Option<string>, t: DataType, bPrintOut: bool, inBounds: bool, ok: bool,
                         printed: string)
    requires value.Some? ==> Octets(value.value)
  {
    if value.None? || |value.value| >= (if t.Hex? then 6 else 18) then inBounds && !ok
    else
      var text := value.value;
      && (t.Hex? ==>
           inBounds && ok == bPrintOut && (ok ==> Spells(printed, ZeroPadded(BytesOf(text)), ':')))
      && (t.Ascii? ==>
           && (inBounds <==> Separated(text) || 10 <= |text| <= 13)
           && (inBounds ==>
                 && ok == (bPrintOut && |text| == if Separated(text) then 17 else 12)
                 && (ok ==> printed == if Separated(text) then text else WithSeparators(text, ':', 5))))
  }

  /** Six bytes, the last of them zero. */
  function ZeroPadded(b: seq<Byte>): (r: seq<Byte>)
    requires |b| <= BD_ADDR_LEN
    ensures |r| == BD_ADDR_LEN
  {
    seq(BD_ADDR_LEN, i requires 0 <= i < BD_ADDR_LEN => if i < |b| then b[i] else 0)
  }

  lemma LoadedFile(content: seq<char>, t: DataType)
    requires Octets(content)
    ensures t.Hex? && |content| >= 6 ==>
              Loaded(File(Some(content)), t).Some?
              && HexBytes(Loaded(File(Some(content)), t).value) == BytesOf(content[..6])
    ensures t.Ascii? && |content| >= 18 ==>
              Loaded(File(Some(content)), t).Some? && InBuffer(Loaded(File(Some(content)), t).value) == content[..18]
  {
    if t.Hex? && |content| >= 6 {
      assert InBuffer(content[..6])[..6] == content[..6];
    }
    if t.Ascii? && |content| >= 18 {
      assert content[..18] + [] == content[..18];
    }
  }

  lemma LoadedProperty(text: string, t: DataType)
    requires Octets(text) && '\0' !in text
    ensures t.Hex? && |text| < 6 ==>
              Loaded(Property(Some(text)), t).Some?
              && HexBytes(Loaded(Property(Some(text)), t).value) == ZeroPadded(BytesOf(text))
    ensures t.Ascii? && |text| < 18 ==>
              && Loaded(Property(Some(text)), t).Some? && Loaded(Property(Some(text)), t).value == text + "\0"
              && Padded(InBuffer(text + "\0"), text)
  {
    if t.Hex? && |text| < 6 {
      var buf := InBuffer(text + "\0");
      assert forall k | 0 <= k < 6 :: buf[..6][k] == if k < |text| then text[k] else '\0';
    }
    if t.Ascii? && |text| < 18 {
      var buf := InBuffer(text + "\0");
      assert buf[..|text|] == text;
    }
  }

  /** The union after data was stored at its beginning. */
  function InBuffer(data: seq<char>): (buf: seq<char>)
    requires |data| <= BD_ADDR_STR_LEN
    ensures |buf| == BD_ADDR_STR_LEN
  {
    data + Zeros()[|data|..]
  }

  function Zeros(): (z: seq<char>)
    ensures |z| == BD_ADDR_STR_LEN
  {
    seq(BD_ADDR_STR_LEN, _ => '\0')
  }

  function HexBytes(data: seq<char>): (b: seq<Byte>)
    requires |data| <= BD_ADDR_LEN && Octets(data)
    ensures |b| == BD_ADDR_LEN
  {
    BytesOf(InBuffer(data)[..BD_ADDR_LEN])
  }

  lemma ZeroBuffer(buf: seq<char>)
    requires |buf| == BD_ADDR_STR_LEN && Padded(buf, "")
    ensures buf == Zeros()
  {
  }
}
