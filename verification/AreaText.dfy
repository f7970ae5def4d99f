/** Reading focus and metering areas from text, "(left,top,right,bottom,weight),(...)". */
module AreaText {
  import opened Common
  import opened SizeLists

  const AREA_STR_SIZE := 32 // the buffer one area is copied to, terminator included

  /** Five values as the application writes them. */
  datatype Written = Written(left: Int32, top: Int32, right: Int32, bottom: Int32, weight: Int32)

  /** The areas read; or the text is refused; or an area outgrew the buffer. */
  datatype Parsed = Areas(areas: seq<Written>) | Bad | Overrun

  // ---------- the parser ----------

  /** strchr: where a character first is, or the length. */
  function Find(s: string, c: char): (i: nat)
    ensures i <= |s| && (i < |s| ==> s[i] == c)
    ensures forall k | 0 <= k < i :: s[k] != c
  {
    if s == [] || s[0] == c then 0 else 1 + Find(s[1..], c)
  }

  /** n numbers with commas between them; what follows the last is not looked at. */
  function ParseNumbers(s: string, n: nat): (r: Option<seq<Int32>>)
    ensures r.Some? ==> |r.value| == n
  {
    if n == 0 then Some([])
    else
      var (number, end) := StrToL(s);
      if n == 1 then Some([number])
      else if CharAt(s, end) != ',' then None
      else
        var more := ParseNumbers(s[end + 1..], n - 1);
        if more.None? then None else Some([number] + more.value)
  }

  /** parseNDimVector of one area, parentheses included. */
  function ParseVector(s: string): Option<Written>
    requires |s| >= 2
  {
    var ns := ParseNumbers(s[1..], 5);
    if ns.None? then None
    else Some(Written(ns.value[0], ns.value[1], ns.value[2], ns.value[3], ns.value[4]))
  }

  /** The area a text starts with, and where its parenthesis is; or why there is none. */
  datatype First = Stop(why: Parsed) | Got(area: Written, end: nat)

  function FirstArea(s: string): (f: First)
    ensures f.Got? ==> 0 < f.end < |s| && s[f.end] == ')'
    ensures f.Stop? ==> !f.why.Areas?
  {
    if s == [] || s[0] != '(' then Stop(Bad)
    else
      var end := Find(s, ')');
      if end == |s| then Stop(Bad)
      else if end + 1 >= AREA_STR_SIZE then Stop(Overrun)
      else
        var v := ParseVector(s[..end + 1]);
        if v.None? then Stop(Bad) else Got(v.value, end)
  }

  /** Where the next area starts, behind the end of one. */
  function NextArea(s: string, end: nat): (next: nat)
    requires end < |s| && s[end] == ')'
    ensures end < next <= |s|
  {
    end + Find(s[end..], '(')
  }

  function ParseText(s: string, maxAreas: nat): (p: Parsed)
    ensures p.Areas? ==> 0 < |p.areas| <= maxAreas
    decreases |s|
  {
    var f := FirstArea(s);
    if f.Stop? then f.why
    else if maxAreas == 0 then Bad
    else
      var next := NextArea(s, f.end);
      if next == |s| then Areas([f.area])
      else Prepended(f.area, ParseText(s[next..], maxAreas - 1))
  }

  function Prepended(v: Written, p: Parsed): Parsed { if p.Areas? then Areas([v] + p.areas) else p }

  // ---------- what the application writes ----------

  function NumbersText(ns: seq<Int32>): string
    requires ns != []
  {
    if |ns| == 1 then Dec(ns[0]) + ")" else Dec(ns[0]) + ("," + NumbersText(ns[1..]))
  }

  function Numbers(v: Written): seq<Int32> { [v.left, v.top, v.right, v.bottom, v.weight] }

  function OneAreaText(v: Written): string { "(" + NumbersText(Numbers(v)) }

  function AreasText(vs: seq<Written>): string
    requires vs != []
  {
    if |vs| == 1 then OneAreaText(vs[0]) else OneAreaText(vs[0]) + ("," + AreasText(vs[1..]))
  }

  predicate Short(v: Written) { |OneAreaText(v)| < AREA_STR_SIZE }

  // ---------- reading back what was written ----------

  lemma {:induction false} NumbersRoundTrip(ns: seq<Int32>)
    requires ns != []
    ensures ParseNumbers(NumbersText(ns), |ns|) == Some(ns)
  {
    hide StrToL, Dec;
    if |ns| == 1 {
      StrToLOfDec(ns[0], ")");
      assert [ns[0]] == ns;
    } else {
      var rest := NumbersText(ns[1..]);
      NumbersRoundTrip(ns[1..]);
      StrToLOfDec(ns[0], "," + rest);
      assert (Dec(ns[0]) + ("," + rest))[|Dec(ns[0])|] == ',';
      assert (Dec(ns[0]) + ("," + rest))[|Dec(ns[0])| + 1..] == rest;
      assert [ns[0]] + ns[1..] == ns;
    }
  }

  predicate Plain(s: string) { forall k | 0 <= k < |s| :: s[k] != '(' && s[k] != ')' }

  lemma DecPlain(n: int)
    ensures Plain(Dec(n))
  {
    var s := Dec(n);
    forall k | 0 <= k < |s| ensures s[k] != '(' && s[k] != ')' {
      assert s[k] == '-' || IsDigit(s[k]);
    }
  }

  lemma {:induction false} NumbersTextPlain(ns: seq<Int32>)
    requires ns != []
    ensures var t := NumbersText(ns); t != [] && t[|t| - 1] == ')' && Plain(t[..|t| - 1])
  {
    hide Dec;
    DecPlain(ns[0]);
    if |ns| > 1 {
      NumbersTextPlain(ns[1..]);
      PlainJoin(Dec(ns[0]), NumbersText(ns[1..]));
    } else {
      assert NumbersText(ns)[..|Dec(ns[0])|] == Dec(ns[0]);
    }
  }

  lemma PlainJoin(a: string, b: string)
    requires Plain(a) && b != [] && Plain(b[..|b| - 1])
    ensures var t := a + ("," + b); t[|t| - 1] == b[|b| - 1] && Plain(t[..|t| - 1])
  {
    var t := a + ("," + b);
    forall k | 0 <= k < |t| - 1 ensures t[k] != '(' && t[k] != ')' {
      if k > |a| {
        assert t[k] == b[..|b| - 1][k - |a| - 1];
      }
    }
  }

  lemma FindIs(s: string, c: char, i: nat)
    requires i < |s| && s[i] == c && forall k | 0 <= k < i :: s[k] != c
    ensures Find(s, c) == i
  {
  }

  lemma FindNone(s: string, c: char)
    requires forall k | 0 <= k < |s| :: s[k] != c
    ensures Find(s, c) == |s|
  {
  }

  /** An area ends at its only closing parenthesis, and reads back as its values. */
  lemma OneArea(v: Written)
    ensures Enclosed(OneAreaText(v)) && ParseVector(OneAreaText(v)) == Some(v)
  {
    hide *;
    OneAreaIs(v, Numbers(v));
    NumbersTextPlain(Numbers(v));
    NumbersRoundTrip(Numbers(v));
    PlainEnclosed(NumbersText(Numbers(v)));
    VectorOf(v, NumbersText(Numbers(v)));
  }

  lemma OneAreaIs(v: Written, ns: seq<Int32>)
    requires ns == Numbers(v)
    ensures |ns| == 5 && OneAreaText(v) == "(" + NumbersText(ns)
  {
    hide NumbersText;
  }

  predicate Enclosed(a: string) {
    |a| >= 2 && a[0] == '(' && a[|a| - 1] == ')' && forall k | 0 <= k < |a| - 1 :: a[k] != ')'
  }

  lemma PlainEnclosed(t: string)
    requires t != [] && t[|t| - 1] == ')' && Plain(t[..|t| - 1])
    ensures Enclosed("(" + t)
  {
    var a := "(" + t;
    forall k | 1 <= k < |a| - 1 ensures a[k] != ')' {
      assert a[k] == t[..|t| - 1][k - 1];
    }
  }

  lemma VectorOf(v: Written, t: string)
    requires t != [] && ParseNumbers(t, 5) == Some(Numbers(v))
    ensures ParseVector("(" + t) == Some(v)
  {
    hide ParseNumbers;
    assert ("(" + t)[1..] == t;
  }

  /** In front of any text it is cut off there. */
  lemma AreaInFront(a: string, rest: string)
    requires Enclosed(a)
    ensures (a + rest)[0] == '(' && Find(a + rest, ')') == |a| - 1
    ensures (a + rest)[..|a|] == a && (a + rest)[|a| - 1..] == ")" + rest
  {
    FindIs(a + rest, ')', |a| - 1);
  }

  lemma FirstOfText(v: Written, rest: string)
    ensures FirstArea(OneAreaText(v) + rest) ==
            if Short(v) then Got(v, |OneAreaText(v)| - 1) else Stop(Overrun)
    ensures (OneAreaText(v) + rest)[|OneAreaText(v)| - 1..] == ")" + rest && |OneAreaText(v)| >= 2
  {
    OneArea(v);
    hide OneAreaText, ParseVector, Find;
    AreaInFront(OneAreaText(v), rest);
  }

  lemma OneAreaParses(v: Written, maxAreas: nat)
    ensures ParseText(OneAreaText(v), maxAreas) ==
            if !Short(v) then Overrun else if maxAreas == 0 then Bad else Areas([v])
  {
    FirstOfText(v, "");
    hide OneAreaText, FirstArea, Short;
    assert OneAreaText(v) + "" == OneAreaText(v) && ")" + "" == ")";
    FindNone(")", '(');
  }

  lemma FirstAreaParses(v: Written, tail: string, maxAreas: nat)
    requires tail != [] && tail[0] == '('
    ensures ParseText(OneAreaText(v) + ("," + tail), maxAreas) ==
            if !Short(v) then Overrun else if maxAreas == 0 then Bad
            else Prepended(v, ParseText(tail, maxAreas - 1))
  {
    FirstOfText(v, "," + tail);
    hide OneAreaText, FirstArea, Short, Prepended;
    FindIs(")" + ("," + tail), '(', 2);
    assert (OneAreaText(v) + ("," + tail))[|OneAreaText(v)| + 1..] == tail;
  }

  lemma AreasTextStarts(vs: seq<Written>)
    requires vs != []
    ensures AreasText(vs) != [] && AreasText(vs)[0] == '('
  {
    hide NumbersText;
  }

  predicate AllShort(vs: seq<Written>) { forall i | 0 <= i < |vs| :: Short(vs[i]) }

  /** A list of areas is read back exactly when each fits the buffer and there are not too many. */
  lemma {:induction false} AreasRoundTripIff(vs: seq<Written>, maxAreas: nat)
    requires vs != []
    ensures ParseText(AreasText(vs), maxAreas) == Areas(vs) <==> |vs| <= maxAreas && AllShort(vs)
  {
    hide OneAreaText, ParseText, Short, AllShort;
    if |vs| == 1 {
      OneAreaParses(vs[0], maxAreas);
      OneShort(vs);
    } else {
      AreasTextStarts(vs[1..]);
      FirstAreaParses(vs[0], AreasText(vs[1..]), maxAreas);
      if maxAreas > 0 {
        AreasRoundTripIff(vs[1..], maxAreas - 1);
        TailShort(vs);
        PrependedIs(vs, ParseText(AreasText(vs[1..]), maxAreas - 1));
      }
    }
  }

  lemma TailShort(vs: seq<Written>)
    requires vs != []
    ensures AllShort(vs) <==> Short(vs[0]) && AllShort(vs[1..])
  {
    hide Short;
    forall i | 1 <= i < |vs| ensures vs[i] == vs[1..][i - 1] {
    }
  }

  lemma OneShort(vs: seq<Written>)
    requires |vs| == 1
    ensures AllShort(vs) <==> Short(vs[0])
  {
    hide Short;
  }

  lemma PrependedIs(vs: seq<Written>, p: Parsed)
    requires vs != []
    ensures Prepended(vs[0], p) == Areas(vs) <==> p == Areas(vs[1..])
  {
    if p.Areas? && [vs[0]] + p.areas == vs {
      assert p.areas == vs[1..];
    }
  }

  /** Values of at most four digits fit: that is every area in range, and more. */
  lemma FourDigitsShort(v: Written)
    requires -1000 <= v.left <= 1000 && -1000 <= v.top <= 1000 && -1000 <= v.right <= 1000
    requires -1000 <= v.bottom <= 1000 && 0 <= v.weight <= 1000
    ensures Short(v)
  {
    DecShort(v.left);
    DecShort(v.top);
    DecShort(v.right);
    DecShort(v.bottom);
    DecShort(v.weight);
    NumbersLength(Numbers(v));
  }

  lemma {:induction false} NumbersLength(ns: seq<Int32>)
    requires ns != [] && forall i | 0 <= i < |ns| :: |Dec(ns[i])| <= 5
    ensures |NumbersText(ns)| <= 6 * |ns|
  {
    hide Dec;
    if |ns| > 1 {
      NumbersLength(ns[1..]);
    }
  }

  lemma DecShort(n: int)
    requires -1000 <= n <= 1000
    ensures |Dec(n)| <= 5
  {
    assert Pow10(4) == 10000 by { assert Pow10(2) == 100; }
    DecLength(Magnitude(n), 4);
  }

  // ---------- texts that leave the buffer ----------

  /** A text starts with a group in parentheses that has 32 characters or more. */
  predicate StartsLong(s: string) {
    s != [] && s[0] == '(' && Find(s, ')') < |s| && Find(s, ')') + 1 >= AREA_STR_SIZE
  }

  /** A text starts with a shorter group, of five numbers. */
  predicate StartsGood(s: string) {
    && s != [] && s[0] == '(' && Find(s, ')') < |s| && Find(s, ')') + 1 < AREA_STR_SIZE
    && ParseVector(s[..Find(s, ')') + 1]).Some?
  }

  /** The k-th group of a text is too long, and the ones before it are good. */
  predicate OverrunsAt(s: string, k: nat) {
    if k == 0 then StartsLong(s)
    else
      StartsGood(s) &&
      var next := NextArea(s, Find(s, ')'));
      next < |s| && OverrunsAt(s[next..], k - 1)
  }

  lemma FirstAreaIs(s: string)
    ensures FirstArea(s) == Stop(Overrun) <==> StartsLong(s)
    ensures FirstArea(s).Got? <==> StartsGood(s)
    ensures FirstArea(s).Got? ==> FirstArea(s).end == Find(s, ')')
  {
    hide Find, ParseVector;
  }

  /** Some group leaves the buffer, at or before the first one too many and behind none that is
      ill-formed.
   */
  predicate LeavesBuffer(s: string, maxAreas: nat) { exists k: nat | k <= maxAreas :: OverrunsAt(s, k) }

  /** Whatever the text, this is exactly when it is copied beyond the buffer. */
  lemma {:induction false} OverrunIff(s: string, maxAreas: nat)
    ensures ParseText(s, maxAreas) == Overrun <==> LeavesBuffer(s, maxAreas)
    decreases |s|
  {
    FirstAreaIs(s);
    hide FirstArea, StartsLong, StartsGood, Find, NextArea, LeavesBuffer;
    var f := FirstArea(s);
    if f.Got? {
      if maxAreas > 0 && NextArea(s, f.end) < |s| {
        OverrunIff(s[NextArea(s, f.end)..], maxAreas - 1);
        LeavesBehindFirst(s, maxAreas);
      } else {
        NotBehind(s, maxAreas);
      }
    } else {
      LeavesAtStart(s, maxAreas);
    }
  }

  lemma LeavesAtStart(s: string, maxAreas: nat)
    requires !StartsGood(s)
    ensures LeavesBuffer(s, maxAreas) <==> StartsLong(s)
  {
    hide StartsGood, StartsLong, NextArea;
    if StartsLong(s) {
      var k := 0;
      assert OverrunsAt(s, k);
    }
  }

  lemma LeavesBehindFirst(s: string, maxAreas: nat)
    requires StartsGood(s) && maxAreas > 0 && NextArea(s, Find(s, ')')) < |s|
    ensures LeavesBuffer(s, maxAreas) <==> LeavesBuffer(s[NextArea(s, Find(s, ')'))..], maxAreas - 1)
  {
    var next := NextArea(s, Find(s, ')'));
    assert !StartsLong(s);
    hide StartsGood, StartsLong, NextArea, Find;
    if LeavesBuffer(s, maxAreas) {
      var k: nat :| k <= maxAreas && OverrunsAt(s, k);
      assert OverrunsAt(s[next..], k - 1);
    }
    if LeavesBuffer(s[next..], maxAreas - 1) {
      var k: nat :| k <= maxAreas - 1 && OverrunsAt(s[next..], k);
      assert OverrunsAt(s, k + 1);
    }
  }

  lemma NotBehind(s: string, maxAreas: nat)
    requires StartsGood(s) && (maxAreas == 0 || NextArea(s, Find(s, ')')) == |s|)
    ensures !LeavesBuffer(s, maxAreas)
  {
    assert !StartsLong(s);
    hide StartsGood, StartsLong, NextArea, Find;
  }

  /** A text of n good groups, one behind the other. */
  predicate GoodGroups(s: string, n: nat) {
    n > 0 && StartsGood(s) &&
    var next := NextArea(s, Find(s, ')'));
    if n == 1 then next == |s| else next < |s| && GoodGroups(s[next..], n - 1)
  }

  predicate Readable(s: string, maxAreas: nat) { exists n: nat | n <= maxAreas :: GoodGroups(s, n) }

  /** A text is read exactly when all its groups are good, and it has at least one and not too many. */
  lemma {:induction false} ReadIff(s: string, maxAreas: nat)
    ensures ParseText(s, maxAreas).Areas? <==> Readable(s, maxAreas)
    decreases |s|
  {
    FirstAreaIs(s);
    hide FirstArea, StartsGood, Find, NextArea, Readable;
    var f := FirstArea(s);
    if f.Got? && maxAreas > 0 && NextArea(s, f.end) < |s| {
      ReadIff(s[NextArea(s, f.end)..], maxAreas - 1);
      ReadableBehindFirst(s, maxAreas);
    } else if f.Got? && maxAreas > 0 {
      OneGroup(s, maxAreas);
    } else {
      NotReadable(s, maxAreas);
    }
  }

  lemma OneGroup(s: string, maxAreas: nat)
    requires StartsGood(s) && maxAreas > 0 && NextArea(s, Find(s, ')')) == |s|
    ensures Readable(s, maxAreas) && forall n | GoodGroups(s, n) :: n == 1
  {
    hide StartsGood, NextArea, Find;
    var n := 1;
    assert GoodGroups(s, n);
  }

  lemma NotReadable(s: string, maxAreas: nat)
    requires !StartsGood(s) || maxAreas == 0
    ensures !Readable(s, maxAreas) && forall n: nat | n <= maxAreas :: !GoodGroups(s, n)
  {
    hide StartsGood, NextArea, Find;
  }

  lemma ReadableBehindFirst(s: string, maxAreas: nat)
    requires StartsGood(s) && maxAreas > 0 && NextArea(s, Find(s, ')')) < |s|
    ensures Readable(s, maxAreas) <==> Readable(s[NextArea(s, Find(s, ')'))..], maxAreas - 1)
    ensures forall n: nat :: GoodGroups(s, n) <==> n > 0 && GoodGroups(s[NextArea(s, Find(s, ')'))..], n - 1)
  {
    var next := NextArea(s, Find(s, ')'));
    hide StartsGood, NextArea, Find;
    if Readable(s, maxAreas) {
      var n: nat :| n <= maxAreas && GoodGroups(s, n);
      assert GoodGroups(s[next..], n - 1);
    }
    if Readable(s[next..], maxAreas - 1) {
      var n: nat :| n <= maxAreas - 1 && GoodGroups(s[next..], n);
      assert GoodGroups(s, n + 1);
    }
  }

  /** Blanks behind the commas, as in "(1, 2, 3, 4, 5)", make no difference. */
  function SpacedText(ns: seq<Int32>): string
    requires ns != []
  {
    if |ns| == 1 then Dec(ns[0]) + ")" else Dec(ns[0]) + ("," + (" " + SpacedText(ns[1..])))
  }

  lemma {:induction false} SpacedRoundTrip(ns: seq<Int32>, front: string)
    requires ns != [] && (front == "" || front == " ")
    ensures ParseNumbers(front + SpacedText(ns), |ns|) == Some(ns)
  {
    hide StrToL, Dec, ParseNumbers;
    if |ns| == 1 {
      LastNumber(ns[0], front);
      assert [ns[0]] == ns;
    } else {
      SpacedRoundTrip(ns[1..], " ");
      FirstNumber(ns[0], front, " " + SpacedText(ns[1..]), |ns|);
      assert [ns[0]] + ns[1..] == ns;
    }
  }

  lemma LastNumber(n: Int32, front: string)
    requires front == "" || front == " "
    ensures ParseNumbers(front + (Dec(n) + ")"), 1) == Some([n])
  {
    hide StrToL, Dec;
    StrToLBlank(n, ")", front);
  }

  lemma FirstNumber(n: Int32, front: string, rest: string, k: nat)
    requires (front == "" || front == " ") && k > 1
    ensures var more := ParseNumbers(rest, k - 1);
            ParseNumbers(front + (Dec(n) + ("," + rest)), k) == if more.None? then None else Some([n] + more.value)
  {
    hide StrToL, Dec;
    var text := front + (Dec(n) + ("," + rest));
    StrToLBlank(n, "," + rest, front);
    assert text[|front| + |Dec(n)|] == ',';
    assert text[|front| + |Dec(n)| + 1..] == rest;
  }

  lemma StrToLBlank(n: Int32, rest: string, front: string)
    requires rest != [] && !IsDigit(rest[0]) && (front == "" || front == " ")
    ensures StrToL(front + (Dec(n) + rest)) == (n, |front| + |Dec(n)|)
  {
    var sign := if n < 0 then "-" else "";
    hide *;
    DecNumeral(n, rest, front, sign);
    StrToLReads(front + (Dec(n) + rest), |front|, sign, DecNat(Magnitude(n)));
    DecLengthIs(n);
    NearestIsItself(n, sign);
  }

  lemma NearestIsItself(n: Int32, sign: string)
    requires sign == if n < 0 then "-" else ""
    ensures Nearest(if sign == "-" then -NumberOf(DecNat(Magnitude(n))) else NumberOf(DecNat(Magnitude(n)))) == n
    ensures |sign| == if n < 0 then 1 else 0
  {
    NumberOfDec(Magnitude(n));
    hide NumberOf, DecNat;
  }

  lemma DecLengthIs(n: int)
    ensures |Dec(n)| == (if n < 0 then 1 else 0) + |DecNat(Magnitude(n))|
  {
  }

  lemma DecNumeral(n: Int32, rest: string, front: string, sign: string)
    requires rest != [] && !IsDigit(rest[0]) && (front == " " || front == "") && sign == if n < 0 then "-" else ""
    ensures Numeral(front + (Dec(n) + rest), |front|, sign, DecNat(Magnitude(n)))
  {
    assert Dec(n) == sign + DecNat(Magnitude(n));
    assert AllDigits(DecNat(Magnitude(n))) && AllBlank(front) && IsSign(sign);
    hide DecNat, Dec, AllDigits, AllBlank, IsSign, IsDigit;
    NumeralOf(front, sign, DecNat(Magnitude(n)), rest);
  }

  lemma NumeralOf(front: string, sign: string, digits: string, rest: string)
    requires AllBlank(front) && IsSign(sign) && AllDigits(digits) && rest != [] && !IsDigit(rest[0])
    ensures Numeral(front + ((sign + digits) + rest), |front|, sign, digits)
  {
    hide AllDigits, AllBlank, IsSign, IsDigit;
    var s := front + ((sign + digits) + rest);
    assert s[..|front|] == front;
    assert s[|front|..|front| + |sign|] == sign;
    assert s[|front| + |sign|..|front| + |sign| + |digits|] == digits;
    assert s[|front| + |sign| + |digits|] == rest[0];
  }

  /** Left, top, right, bottom, weight. */
  lemma AreaTextIs(v: Written)
    ensures OneAreaText(v) ==
            "(" + (Dec(v.left) + ("," + (Dec(v.top) + ("," + (Dec(v.right) + ("," + (Dec(v.bottom) + ("," +
            (Dec(v.weight) + ")")))))))))
  {
    OneAreaIs(v, [v.left] + ([v.top] + ([v.right] + ([v.bottom] + [v.weight])))) by {
      hide NumbersText;
      assert [v.left] + ([v.top] + ([v.right] + ([v.bottom] + [v.weight]))) == Numbers(v);
    }
    LastText(v.weight);
    hide *;
    Joined(v.bottom, [v.weight]);
    Joined(v.right, [v.bottom] + [v.weight]);
    Joined(v.top, [v.right] + ([v.bottom] + [v.weight]));
    Joined(v.left, [v.top] + ([v.right] + ([v.bottom] + [v.weight])));
  }

  lemma LastText(n: Int32)
    ensures NumbersText([n]) == Dec(n) + ")"
  {
    hide Dec;
  }

  lemma Joined(n: Int32, ns: seq<Int32>)
    requires ns != []
    ensures NumbersText([n] + ns) == Dec(n) + ("," + NumbersText(ns))
  {
    hide Dec;
    assert ([n] + ns)[1..] == ns;
  }

  /** A text that does it. */
  lemma LongAreaOverruns(maxAreas: nat)
    ensures ParseText("(" + Nines() + ")", maxAreas) == Overrun
  {
    var s := "(" + Nines() + ")";
    assert |s| == 33 && s[32] == ')';
    FindIs(s, ')', 32);
  }

  function Nines(): (s: string)
    ensures |s| == 31 && forall k | 0 <= k < |s| :: s[k] == '9'
  {
    seq(31, _ => '9')
  }

  // ---------- the loops ----------

  method ParseNDimVector(str: string) returns (v: Option<Written>)
    requires |str| >= 2 && str[0] == '(' && str[|str| - 1] == ')'
    ensures v == ParseVector(str)
  {
    hide StrToL, ParseNumbers, Appended;
    var num: seq<Int32> := [];
    var start: nat := 1;
    AppendedNothing(str[1..], 5);
    for i := 0 to 5
      invariant start <= |str| && |num| == i
      invariant ParseNumbers(str[1..], 5) == Appended(num, ParseNumbers(str[start..], 5 - i))
    {
      AppendedStep(num, str[start..], 5 - i);
      var number, end := StrToL(str[start..]).0, StrToL(str[start..]).1;
      if i < 4 {
        if CharAt(str[start..], end) != ',' { return None; }
        assert str[start..][end + 1..] == str[start + end + 1..];
        start := start + end + 1;
      }
      num := num + [number];
    }
    AppendedNone(num, str[start..]);
    return Some(Written(num[0], num[1], num[2], num[3], num[4]));
  }

  function Appended(num: seq<Int32>, more: Option<seq<Int32>>): Option<seq<Int32>> {
    if more.None? then None else Some(num + more.value)
  }

  lemma AppendedNothing(s: string, n: nat)
    ensures Appended([], ParseNumbers(s, n)) == ParseNumbers(s, n)
  {
    hide ParseNumbers;
    var more := ParseNumbers(s, n);
    if more.Some? {
      assert [] + more.value == more.value;
    }
  }

  lemma AppendedNone(num: seq<Int32>, s: string)
    ensures Appended(num, ParseNumbers(s, 0)) == Some(num)
  {
    assert num + [] == num;
  }

  lemma AppendedStep(num: seq<Int32>, s: string, n: nat)
    requires n > 0
    ensures var (number, end) := StrToL(s);
            Appended(num, ParseNumbers(s, n)) ==
            if n == 1 then Appended(num + [number], ParseNumbers(s, 0))
            else if CharAt(s, end) != ',' then None
            else Appended(num + [number], ParseNumbers(s[end + 1..], n - 1))
  {
    hide StrToL;
    var (number, end) := StrToL(s);
    AppendedNone(num + [number], s);
    if n > 1 && CharAt(s, end) == ',' {
      var more := ParseNumbers(s[end + 1..], n - 1);
      if more.Some? {
        assert num + ([number] + more.value) == (num + [number]) + more.value;
      }
    }
  }

  method ParseCameraAreaString(str: string, maxAreas: nat) returns (p: Parsed)
    ensures p == ParseText(str, maxAreas)
  {
    hide FirstArea, NextArea, ParseText, After;
    var areas: seq<Written> := [];
    var start: nat := 0;
    assert str[0..] == str;
    AfterNothing(ParseText(str, maxAreas));
    while true
      invariant start <= |str| && |areas| <= maxAreas
      invariant ParseText(str, maxAreas) == After(areas, ParseText(str[start..], maxAreas - |areas|))
      decreases |str| - start
    {
      AfterStep(areas, str[start..], maxAreas - |areas|);
      var first := ReadArea(str, start);
      if first.Stop? { return first.why; }
      if |areas| >= maxAreas { return Bad; }
      areas := areas + [first.area];
      var next := NextArea(str[start..], first.end);
      if next == |str| - start { return Areas(areas); }
      assert str[start..][next..] == str[start + next..];
      start := start + next;
    }
  }

  /** One turn of the loop: find the parentheses, copy what is between them, and read it. */
  method ReadArea(str: string, start: nat) returns (f: First)
    requires start <= |str|
    ensures f == FirstArea(str[start..])
  {
    hide ParseVector;
    if start == |str| || str[start] != '(' { return Stop(Bad); }
    var end := Find(str[start..], ')');
    if end == |str| - start { return Stop(Bad); }
    if end + 1 >= AREA_STR_SIZE { return Stop(Overrun); }
    assert str[start..][..end + 1] == str[start..start + end + 1];
    assert str[start..][end] == ')';
    var v := ParseNDimVector(str[start..start + end + 1]);
    if v.None? { return Stop(Bad); }
    return Got(v.value, end);
  }

  function After(areas: seq<Written>, p: Parsed): Parsed { if p.Areas? then Areas(areas + p.areas) else p }

  lemma AfterNothing(p: Parsed)
    ensures After([], p) == p
  {
    if p.Areas? {
      assert [] + p.areas == p.areas;
    }
  }

  lemma AfterStep(areas: seq<Written>, s: string, room: nat)
    ensures var f := FirstArea(s);
            After(areas, ParseText(s, room)) ==
            if f.Stop? then f.why
            else if room == 0 then Bad
            else if NextArea(s, f.end) == |s| then Areas(areas + [f.area])
            else After(areas + [f.area], ParseText(s[NextArea(s, f.end)..], room - 1))
  {
    hide FirstArea, NextArea;
    var f := FirstArea(s);
    if f.Got? && room > 0 && NextArea(s, f.end) < |s| {
      var p := ParseText(s[NextArea(s, f.end)..], room - 1);
      hide ParseText;
      if p.Areas? {
        assert areas + ([f.area] + p.areas) == (areas + [f.area]) + p.areas;
      }
    }
  }
}
