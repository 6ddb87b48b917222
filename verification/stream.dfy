/** Character-level model of the stream operations the flat files use:
    `std::getline` splitting, whitespace skipping, `>> std::string`,
    `>> int` (with the C++11 failure values), and the `std::quoted`
    manipulator for reading and writing (delimiter `"`, escape `\`), as the
    GNU C++ library implements them, together with `<< int`. */
module Streams {

  /** The range of a 32-bit `int`. */
  const IntMin: int := -0x8000_0000
  const IntMax: int := 0x7FFF_FFFF

  /** `isspace` in the "C" locale. */
  predicate IsSpace(ch: char) {
    ch == ' ' || ch == '\t' || ch == '\n' || ch == '\r' || ch == '\U{000B}' || ch == '\U{000C}'
  }

  predicate IsDigit(ch: char) {
    '0' <= ch <= '9'
  }

  /** A token `>> std::string` reads back whole: non-empty, no whitespace. */
  predicate IsWord(w: string) {
    |w| > 0 && forall i :: 0 <= i < |w| ==> !IsSpace(w[i])
  }

  /** The outcome of extracting a value: the value and the unread rest of
      the line, or failure. */
  datatype Read<T> = Got(value: T, rest: string) | Fail

  // ------------------------------------------------------------- getline

  /** Length of the text before the first newline. */
  function LineSpan(text: string): (n: nat)
    ensures n <= |text|
    ensures forall i :: 0 <= i < n ==> text[i] != '\n'
    ensures n == |text| || text[n] == '\n'
  {
    if |text| > 0 && text[0] != '\n' then 1 + LineSpan(text[1..]) else 0
  }

  /** Repeated `std::getline`: the lines of `text`; a final newline does not
      start another line. */
  function SplitLines(text: string): (lines: seq<string>)
    ensures |lines| == 0 <==> |text| == 0
    ensures forall k :: 0 <= k < |lines| ==> NoNewline(lines[k])
    decreases |text|
  {
    if |text| == 0 then []
    else
      var n := LineSpan(text);
      if n == |text| then [text] else [text[..n]] + SplitLines(text[n + 1..])
  }

  /** Writing each line followed by `"\n"`. */
  function JoinLines(lines: seq<string>): string {
    if |lines| == 0 then "" else lines[0] + "\n" + JoinLines(lines[1..])
  }

  predicate NoNewline(s: string) {
    forall i :: 0 <= i < |s| ==> s[i] != '\n'
  }

  /** A concatenation holds no newline exactly when neither part does. */
  lemma NoNewlineConcat(a: string, b: string)
    ensures NoNewline(a + b) <==> NoNewline(a) && NoNewline(b)
  {
    if NoNewline(a + b) {
      forall i | 0 <= i < |a| ensures a[i] != '\n' {
        assert (a + b)[i] == a[i];
      }
      forall i | 0 <= i < |b| ensures b[i] != '\n' {
        assert (a + b)[|a| + i] == b[i];
      }
    }
    if NoNewline(a) && NoNewline(b) {
      forall i | 0 <= i < |a + b| ensures (a + b)[i] != '\n' {
        if i >= |a| {
          assert (a + b)[i] == b[i - |a|];
        }
      }
    }
  }

  /** Lines without newlines are read back exactly as written. */
  /** `SplitJoin` for lines that may hold a newline: the split gives the
      lines back whenever none of them does. */
  lemma SplitJoinWhenLines(lines: seq<string>)
    ensures (forall k :: 0 <= k < |lines| ==> NoNewline(lines[k])) ==> SplitLines(JoinLines(lines)) == lines
  {
    if forall k :: 0 <= k < |lines| ==> NoNewline(lines[k]) {
      SplitJoin(lines);
    }
  }

  lemma {:induction false} SplitJoin(lines: seq<string>)
    requires forall k :: 0 <= k < |lines| ==> NoNewline(lines[k])
    ensures SplitLines(JoinLines(lines)) == lines
  {
    if |lines| > 0 {
      var text := JoinLines(lines);
      var l := lines[0];
      assert text == l + ("\n" + JoinLines(lines[1..]));
      LineSpanOf(l, "\n" + JoinLines(lines[1..]));
      assert text[..|l|] == l;
      assert text[|l| + 1..] == JoinLines(lines[1..]);
      SplitJoin(lines[1..]);
    }
  }

  lemma {:induction false} LineSpanOf(l: string, rest: string)
    requires NoNewline(l) && |rest| > 0 && rest[0] == '\n'
    ensures LineSpan(l + rest) == |l|
  {
    if |l| > 0 {
      assert (l + rest)[1..] == l[1..] + rest;
      LineSpanOf(l[1..], rest);
    } else {
      assert l + rest == rest;
    }
  }

  // ---------------------------------------------------------- whitespace

  /** The skipping of leading whitespace that every formatted extraction
      does first. */
  function SkipSpace(s: string): (t: string)
    ensures |t| <= |s|
    ensures |t| == 0 || !IsSpace(t[0])
  {
    if |s| > 0 && IsSpace(s[0]) then SkipSpace(s[1..]) else s
  }

  /** Length of the leading run of non-whitespace characters. */
  function WordSpan(s: string): (n: nat)
    ensures n <= |s|
    ensures forall i :: 0 <= i < n ==> !IsSpace(s[i])
    ensures n == |s| || IsSpace(s[n])
  {
    if |s| > 0 && !IsSpace(s[0]) then 1 + WordSpan(s[1..]) else 0
  }

  /** Length of the leading run of decimal digits. */
  function DigitSpan(s: string): (n: nat)
    ensures n <= |s|
    ensures forall i :: 0 <= i < n ==> IsDigit(s[i])
    ensures n == |s| || !IsDigit(s[n])
  {
    if |s| > 0 && IsDigit(s[0]) then 1 + DigitSpan(s[1..]) else 0
  }

  // ------------------------------------------------------------- strings

  /** `>> std::string`: skip whitespace, then take characters up to the next
      whitespace; fails when only whitespace is left. */
  function ReadWord(s: string): (r: Read<string>)
    ensures r.Got? ==> IsWord(r.value) && |r.rest| < |s|
    ensures r.Got? ==> |r.value| + |r.rest| <= |s|
    ensures r.Got? ==> |r.rest| == 0 || IsSpace(r.rest[0])
  {
    var t := SkipSpace(s);
    if |t| == 0 then Fail
    else
      var n := WordSpan(t);
      assert t[..n] + t[n..] == t;
      Got(t[..n], t[n..])
  }

  /** Extraction fails exactly when only whitespace is left. */
  lemma {:induction false} BlankReadsNoWord(s: string)
    ensures ReadWord(s).Fail? <==> forall i :: 0 <= i < |s| ==> IsSpace(s[i])
    decreases |s|
  {
    if |s| > 0 && IsSpace(s[0]) {
      BlankReadsNoWord(s[1..]);
      assert ReadWord(s) == ReadWord(s[1..]);
      assert (forall i :: 0 <= i < |s| ==> IsSpace(s[i])) <==> (forall i :: 0 <= i < |s[1..]| ==> IsSpace(s[1..][i]));
    }
  }

  /** Extraction repeated until it fails (`while (iss >> w)`). */
  function ReadWords(s: string): (ws: seq<string>)
    ensures forall k :: 0 <= k < |ws| ==> IsWord(ws[k])
    decreases |s|
  {
    match ReadWord(s)
    case Fail => []
    case Got(w, rest) => [w] + ReadWords(rest)
  }

  /** Each word preceded by one space. */
  function JoinWords(ws: seq<string>): (j: string)
    ensures |j| == 0 || j[0] == ' '
    ensures (forall k :: 0 <= k < |ws| ==> IsWord(ws[k])) ==> NoNewline(j)
  {
    if |ws| == 0 then ""
    else
      var j := " " + ws[0] + JoinWords(ws[1..]);
      NoNewlineConcat(" " + ws[0], JoinWords(ws[1..]));
      j
  }

  /** The first word of a non-empty list, after its space. */
  lemma JoinWordsCons(ws: seq<string>)
    requires |ws| > 0
    ensures JoinWords(ws) == [' '] + (ws[0] + JoinWords(ws[1..]))
  {
    ConcatAssoc(" ", ws[0], JoinWords(ws[1..]));
  }

  /** A word followed by whitespace or the end is read back whole. */
  lemma ReadWordOf(w: string, rest: string)
    requires IsWord(w) && (|rest| == 0 || IsSpace(rest[0]))
    ensures ReadWord(w + rest) == Got(w, rest)
  {
    WordSpanOf(w, rest);
    assert (w + rest)[..|w|] == w && (w + rest)[|w|..] == rest;
  }

  lemma {:induction false} WordSpanOf(w: string, rest: string)
    requires forall i :: 0 <= i < |w| ==> !IsSpace(w[i])
    requires |rest| == 0 || IsSpace(rest[0])
    ensures WordSpan(w + rest) == |w|
  {
    if |w| > 0 {
      assert (w + rest)[1..] == w[1..] + rest;
      WordSpanOf(w[1..], rest);
    } else {
      assert w + rest == rest;
    }
  }

  /** Leading whitespace is skipped before any extraction. */
  lemma SkipOneSpace(ch: char, s: string)
    requires IsSpace(ch)
    ensures SkipSpace([ch] + s) == SkipSpace(s)
  {
    assert ([ch] + s)[1..] == s;
  }

  /** The words written by `JoinWords` are read back in order. */
  lemma {:induction false} ReadJoinedWords(ws: seq<string>)
    requires forall k :: 0 <= k < |ws| ==> IsWord(ws[k])
    ensures ReadWords(JoinWords(ws)) == ws
  {
    if |ws| > 0 {
      var rest := JoinWords(ws[1..]);
      JoinWordsCons(ws);
      SkipOneSpace(' ', ws[0] + rest);
      ReadWordOf(ws[0], rest);
      assert ReadWord(ws[0] + rest) == Got(ws[0], rest);
      assert ReadWord(JoinWords(ws)) == Got(ws[0], rest);
      ReadJoinedWords(ws[1..]);
    } else {
      assert ReadWord("") == Fail;
    }
  }


  // ---------------------------------------------------------------- ints

  function DigitValue(ch: char): (d: nat)
    requires IsDigit(ch)
    ensures d < 10
  {
    ch as int - '0' as int
  }

  /** The value of a run of decimal digits. */
  function DigitsValue(ds: string): (v: nat)
    requires forall i :: 0 <= i < |ds| ==> IsDigit(ds[i])
  {
    if |ds| == 0 then 0 else DigitsValue(ds[..|ds| - 1]) * 10 + DigitValue(ds[|ds| - 1])
  }

  /** The outcome of `>> int`: the value and the unread rest, or failure
      with the value left in the variable (given it held 0 before): 0 when
      no digits were found, the nearest bound on overflow. */
  datatype IntRead = IntOk(value: int, rest: string) | IntFail(stored: int)

  /** `>> int`: skip whitespace, then read the number. */
  function ReadInt(s: string): (r: IntRead)
    ensures r.IntOk? ==> IntMin <= r.value <= IntMax
    ensures r.IntOk? ==> |r.rest| < |s| && (|r.rest| == 0 || !IsDigit(r.rest[0]))
    ensures r.IntFail? ==> r.stored in {0, IntMin, IntMax}
  {
    ReadNumber(SkipSpace(s))
  }

  /** The number at the start of `t`: an optional sign, then the longest run
      of digits, range-checked against a 32-bit `int`. */
  function ReadNumber(t: string): (r: IntRead)
    ensures r.IntOk? ==> IntMin <= r.value <= IntMax
    ensures r.IntOk? ==> |r.rest| < |t| && (|r.rest| == 0 || !IsDigit(r.rest[0]))
    ensures r.IntFail? ==> r.stored in {0, IntMin, IntMax}
  {
    if |t| == 0 then IntFail(0)
    else
      var negative := t[0] == '-';
      var u := if t[0] == '-' || t[0] == '+' then t[1..] else t;
      var n := DigitSpan(u);
      if n == 0 then IntFail(0)
      else
        var magnitude := DigitsValue(u[..n]);
        var v: int := if negative then -(magnitude as int) else magnitude;
        if v > IntMax then IntFail(IntMax)
        else if v < IntMin then IntFail(IntMin)
        else IntOk(v, u[n..])
  }

  function DigitChar(d: nat): char
    requires d < 10
  {
    ('0' as int + d) as char
  }

  /** `<<` of a non-negative integer: its decimal digits. */
  function NatToString(n: nat): (s: string)
    ensures |s| > 0 && forall i :: 0 <= i < |s| ==> IsDigit(s[i])
    ensures DigitsValue(s) == n
  {
    if n < 10 then [DigitChar(n)]
    else
      var s := NatToString(n / 10) + [DigitChar(n % 10)];
      assert s[..|s| - 1] == NatToString(n / 10);
      s
  }

  /** `<< int`: a minus sign for negative values, then the digits. */
  function IntToString(n: int): (s: string)
    ensures |s| > 0 && (s[0] == '-' <==> n < 0)
    ensures n >= 0 ==> (forall i :: 0 <= i < |s| ==> IsDigit(s[i])) && DigitsValue(s) == n
    ensures n < 0 ==> (forall i :: 1 <= i < |s| ==> IsDigit(s[i])) && DigitsValue(s[1..]) == -n
    ensures NoNewline(s)
  {
    if n < 0 then
      var s := "-" + NatToString(-n);
      assert s[1..] == NatToString(-n);
      s
    else NatToString(n)
  }

  /** A digit run followed by a non-digit is measured exactly. */
  lemma {:induction false} DigitSpanOf(ds: string, rest: string)
    requires forall i :: 0 <= i < |ds| ==> IsDigit(ds[i])
    requires |rest| == 0 || !IsDigit(rest[0])
    ensures DigitSpan(ds + rest) == |ds|
  {
    if |ds| > 0 {
      assert (ds + rest)[1..] == ds[1..] + rest;
      DigitSpanOf(ds[1..], rest);
    } else {
      assert ds + rest == rest;
    }
  }

  /** Extraction starts at once when the text starts with no whitespace. */
  lemma SkipNoSpace(s: string)
    requires |s| == 0 || !IsSpace(s[0])
    ensures SkipSpace(s) == s
  {
  }

  /** The digits and what follows them, as `>> int` sees them. */
  lemma ReadDigitsOf(ds: string, rest: string)
    requires |ds| > 0 && forall i :: 0 <= i < |ds| ==> IsDigit(ds[i])
    requires |rest| == 0 || !IsDigit(rest[0])
    ensures DigitSpan(ds + rest) == |ds|
    ensures (ds + rest)[..|ds|] == ds && (ds + rest)[|ds|..] == rest
  {
    DigitSpanOf(ds, rest);
  }

  /** A run of digits followed by a non-digit is read as its value. */
  lemma ReadNumberOfDigits(ds: string, rest: string)
    requires |ds| > 0 && forall i :: 0 <= i < |ds| ==> IsDigit(ds[i])
    requires |rest| == 0 || !IsDigit(rest[0])
    requires DigitsValue(ds) <= IntMax
    ensures ReadNumber(ds + rest) == IntOk(DigitsValue(ds), rest)
  {
    ReadDigitsOf(ds, rest);
  }

  /** A minus sign, then digits: the negated value. */
  lemma ReadNumberOfNegative(ds: string, rest: string)
    requires |ds| > 0 && forall i :: 0 <= i < |ds| ==> IsDigit(ds[i])
    requires |rest| == 0 || !IsDigit(rest[0])
    requires DigitsValue(ds) <= -IntMin
    ensures ReadNumber("-" + (ds + rest)) == IntOk(-(DigitsValue(ds) as int), rest)
  {
    ReadDigitsOf(ds, rest);
    assert ("-" + (ds + rest))[1..] == ds + rest;
  }

  /** A number too large for a 32-bit `int` fails, leaving the bound it
      overflowed in the variable: `INT_MAX` for digits, `INT_MIN` for a
      minus sign then digits. */
  lemma ReadNumberOverflow(ds: string, rest: string)
    requires |ds| > 0 && forall i :: 0 <= i < |ds| ==> IsDigit(ds[i])
    requires |rest| == 0 || !IsDigit(rest[0])
    ensures DigitsValue(ds) > IntMax ==> ReadNumber(ds + rest) == IntFail(IntMax)
    ensures DigitsValue(ds) > -IntMin ==> ReadNumber("-" + (ds + rest)) == IntFail(IntMin)
  {
    ReadDigitsOf(ds, rest);
    assert ("-" + (ds + rest))[1..] == ds + rest;
  }

  /** Every 32-bit value written by `<< int` is read back by `>> int`,
      provided a non-digit (or the end) follows. */
  lemma ReadIntOf(n: int, rest: string)
    requires IntMin <= n <= IntMax
    requires |rest| == 0 || !IsDigit(rest[0])
    ensures ReadInt(IntToString(n) + rest) == IntOk(n, rest)
  {
    if n < 0 {
      var ds := NatToString(-n);
      assert IntToString(n) + rest == "-" + (ds + rest);
      SkipNoSpace("-" + (ds + rest));
      ReadNumberOfNegative(ds, rest);
    } else {
      var ds := NatToString(n);
      assert IntToString(n) + rest == ds + rest;
      SkipNoSpace(ds + rest);
      ReadNumberOfDigits(ds, rest);
    }
  }

  /** `>> int` after leading whitespace. */
  lemma ReadIntAfterSpace(n: int, rest: string)
    requires IntMin <= n <= IntMax
    requires |rest| == 0 || !IsDigit(rest[0])
    ensures ReadInt(" " + IntToString(n) + rest) == IntOk(n, rest)
  {
    var text := IntToString(n) + rest;
    ReadIntOf(n, rest);
    assert " " + IntToString(n) + rest == [' '] + text;
    ReadIntSkipsSpace(' ', text);
  }

  /** `>> int` skips leading whitespace. */
  lemma ReadIntSkipsSpace(ch: char, s: string)
    requires IsSpace(ch)
    ensures ReadInt([ch] + s) == ReadInt(s)
  {
    SkipOneSpace(ch, s);
  }

  // -------------------------------------------------------- std::quoted

  /** What `<< std::quoted(s)` writes between the delimiters: each `"` and
      `\` preceded by `\`. */
  function Escape(s: string): (e: string)
    ensures |s| <= |e| <= 2 * |s|
    ensures NoNewline(s) ==> NoNewline(e)
  {
    if |s| == 0 then ""
    else
      var head := if s[0] == '"' || s[0] == '\\' then ['\\', s[0]] else [s[0]];
      NoNewlineConcat(head, Escape(s[1..]));
      head + Escape(s[1..])
  }

  /** `<< std::quoted(s)`. */
  function Quote(s: string): (q: string)
    ensures |q| >= 2 && q[0] == '"' && q[|q| - 1] == '"'
    ensures NoNewline(s) ==> NoNewline(q)
  {
    NoNewlineConcat("\"", Escape(s));
    NoNewlineConcat("\"" + Escape(s), "\"");
    "\"" + Escape(s) + "\""
  }

  /** The characters between the delimiters, read after the opening `"`:
      `\` takes the next character literally, `"` ends the string, and the
      end of the line before the closing `"` is a failure. */
  function QuotedBody(s: string, acc: string): (r: Read<string>)
    ensures r.Got? ==> |r.rest| < |s|
    decreases |s|
  {
    if |s| == 0 then Fail
    else if s[0] == '\\' then
      if |s| == 1 then Fail else QuotedBody(s[2..], acc + [s[1]])
    else if s[0] == '"' then Got(acc, s[1..])
    else QuotedBody(s[1..], acc + [s[0]])
  }

  /** `>> std::quoted(s)`: skip whitespace; a string that does not start
      with `"` is read as by `>> std::string`. */
  function ReadQuoted(s: string): (r: Read<string>)
    ensures r.Fail? ==> |SkipSpace(s)| == 0 || SkipSpace(s)[0] == '"'
    ensures r.Got? ==> |r.rest| < |s|
  {
    var t := SkipSpace(s);
    if |t| == 0 then Fail
    else if t[0] != '"' then ReadWord(t)
    else QuotedBody(t[1..], "")
  }

  /** An ordinary character is kept. */
  lemma QuotedBodyPlain(c: char, tail: string, acc: string)
    requires c != '\\' && c != '"'
    ensures QuotedBody([c] + tail, acc) == QuotedBody(tail, acc + [c])
  {
    assert ([c] + tail)[1..] == tail;
  }

  /** An escaped character is kept, whatever it is. */
  lemma QuotedBodyEscaped(c: char, tail: string, acc: string)
    ensures QuotedBody(['\\', c] + tail, acc) == QuotedBody(tail, acc + [c])
  {
    assert (['\\', c] + tail)[2..] == tail;
  }

  /** The closing delimiter ends the string. */
  lemma QuotedBodyClose(rest: string, acc: string)
    ensures QuotedBody(['"'] + rest, acc) == Got(acc, rest)
  {
    assert (['"'] + rest)[1..] == rest;
  }

  /** The escaped form of a non-empty string, one character peeled off. */
  lemma EscapeFirst(x: string, rest: string)
    requires |x| > 0
    ensures Escape(x) + "\"" + rest
         == (if x[0] == '"' || x[0] == '\\' then ['\\', x[0]] else [x[0]]) + (Escape(x[1..]) + "\"" + rest)
  {
    var head := if x[0] == '"' || x[0] == '\\' then ['\\', x[0]] else [x[0]];
    var e := Escape(x[1..]);
    assert Escape(x) == head + e;
    ConcatAssoc(head, e, "\"" + rest);
    ConcatAssoc(head + e, "\"", rest);
    ConcatAssoc(e, "\"", rest);
  }

  lemma ConcatAssoc(a: string, b: string, c: string)
    ensures a + b + c == a + (b + c)
  {
  }

  lemma {:induction false} QuotedBodyOf(x: string, rest: string, acc: string)
    ensures QuotedBody(Escape(x) + "\"" + rest, acc) == Got(acc + x, rest)
  {
    if |x| == 0 {
      assert Escape(x) + "\"" + rest == ['"'] + rest;
      QuotedBodyClose(rest, acc);
      assert acc + x == acc;
    } else {
      var tail := Escape(x[1..]) + "\"" + rest;
      EscapeFirst(x, rest);
      if x[0] == '"' || x[0] == '\\' {
        QuotedBodyEscaped(x[0], tail, acc);
      } else {
        QuotedBodyPlain(x[0], tail, acc);
      }
      QuotedBodyOf(x[1..], rest, acc + [x[0]]);
      assert [x[0]] + x[1..] == x;
      ConcatAssoc(acc, [x[0]], x[1..]);
    }
  }

  /** Every string written by `<< std::quoted` is read back exactly by
      `>> std::quoted`, whatever follows it. */
  lemma ReadQuotedOf(x: string, rest: string)
    ensures ReadQuoted(Quote(x) + rest) == Got(x, rest)
  {
    assert Quote(x) == "\"" + Escape(x) + "\"";
    QuotedBodyOf(x, rest, "");
    assert (Quote(x) + rest)[1..] == Escape(x) + "\"" + rest;
    assert "" + x == x;
  }

  /** `>> std::quoted` after leading whitespace. */
  lemma ReadQuotedAfterSpace(x: string, rest: string)
    ensures ReadQuoted(" " + Quote(x) + rest) == Got(x, rest)
  {
    ReadQuotedOf(x, rest);
    assert " " + Quote(x) + rest == [' '] + (Quote(x) + rest);
    SkipOneSpace(' ', Quote(x) + rest);
  }

  /** `>> std::string` after leading whitespace. */
  lemma ReadWordAfterSpace(w: string, rest: string)
    requires IsWord(w) && (|rest| == 0 || IsSpace(rest[0]))
    ensures ReadWord(" " + w + rest) == Got(w, rest)
  {
    ReadWordOf(w, rest);
    assert " " + w + rest == [' '] + (w + rest);
    SkipOneSpace(' ', w + rest);
  }
}
