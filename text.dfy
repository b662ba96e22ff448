/** String operations of JavaScript and Python that the system relies on,
    over `string == seq<char>`. */
module Text {

  /** The ASCII white-space characters that both JavaScript's `trim` and
      Python's `strip` remove. */
  predicate IsSpace(c: char) {
    c == ' ' || c == '\t' || c == '\n' || c == '\r' || c as int == 0x0B || c as int == 0x0C
  }

  /** `!s.trim()` in JavaScript, `not s.strip()` in Python: nothing but white space. */
  predicate IsBlank(s: string): (blank: bool)
    ensures blank <==> forall i :: 0 <= i < |s| ==> IsSpace(s[i])
    decreases |s|
  {
    assert forall i :: 1 <= i < |s| ==> s[i] == s[1..][i - 1];
    s == [] || (IsSpace(s[0]) && IsBlank(s[1..]))
  }

  lemma {:induction false} BlankConcat(a: string, b: string)
    ensures IsBlank(a + b) <==> IsBlank(a) && IsBlank(b)
    decreases |a|
  {
    if a != [] {
      assert (a + b)[1..] == a[1..] + b;
      BlankConcat(a[1..], b);
    } else {
      assert a + b == b;
    }
  }

  predicate StartsWith(s: string, prefix: string) {
    |prefix| <= |s| && s[..|prefix|] == prefix
  }

  predicate EndsWith(s: string, suffix: string) {
    |suffix| <= |s| && s[|s| - |suffix|..] == suffix
  }

  function LowerChar(c: char): char {
    if 'A' <= c <= 'Z' then (c as int - 'A' as int + 'a' as int) as char else c
  }

  function ToLower(s: string): (r: string)
    ensures |r| == |s|
    ensures forall i :: 0 <= i < |s| ==> r[i] == LowerChar(s[i])
  {
    seq(|s|, i requires 0 <= i < |s| => LowerChar(s[i]))
  }

  /** `name.lower().endswith('.pdf')` (backend) and
      `name.toLowerCase().endsWith(".pdf")` (frontend). */
  function HasPdfExtension(name: string): (pdf: bool)
    // the last four characters, lower-cased, are `.pdf`
    ensures pdf <==> |name| >= 4 && ToLower(name[|name| - 4..]) == ".pdf"
  {
    var lower := ToLower(name);
    assert |name| >= 4 ==> lower[|name| - 4..] == ToLower(name[|name| - 4..]);
    EndsWith(lower, ".pdf")
  }

  lemma PdfExtensionIgnoresCase(stem: string)
    ensures HasPdfExtension(stem + ".PDF") && HasPdfExtension(stem + ".pdf")
    ensures !HasPdfExtension(stem + ".pdf.txt")
  {
    var u := ToLower(stem + ".PDF");
    assert u[|u| - 4..] == ".pdf";
    var l := ToLower(stem + ".pdf");
    assert l[|l| - 4..] == ".pdf";
    var t := ToLower(stem + ".pdf.txt");
    assert t[|t| - 1] == 't';
  }

  /** JavaScript's `s.split(d)` for a one-character separator: the pieces
      between occurrences of `d`, always at least one. */
  function Split(s: string, d: char): (parts: seq<string>)
    ensures |parts| >= 1
    decreases |s|
  {
    if s == [] then [""]
    else
      var rest := Split(s[1..], d);
      if s[0] == d then [""] + rest
      else [[s[0]] + rest[0]] + rest[1..]
  }

  /** `parts.join(d)`: the inverse of `Split`. */
  function Join(parts: seq<string>, d: char): string
    requires |parts| >= 1
    decreases |parts|
  {
    if |parts| == 1 then parts[0] else parts[0] + [d] + Join(parts[1..], d)
  }

  lemma {:induction false} JoinSplit(s: string, d: char)
    ensures Join(Split(s, d), d) == s
    decreases |s|
  {
    if s != [] {
      var rest := Split(s[1..], d);
      JoinSplit(s[1..], d);
      if s[0] == d {
        assert ([""] + rest)[1..] == rest;
      } else if |rest| == 1 {
        assert Split(s, d) == [[s[0]] + rest[0]];
      } else {
        var parts := Split(s, d);
        assert parts[1..] == rest[1..];
        assert Join(rest, d) == rest[0] + [d] + Join(rest[1..], d);
        assert s == [s[0]] + s[1..];
      }
    }
  }

  lemma {:induction false} SplitPiecesHaveNoSeparator(s: string, d: char)
    ensures forall p :: p in Split(s, d) ==> d !in p
    decreases |s|
  {
    if s != [] {
      SplitPiecesHaveNoSeparator(s[1..], d);
    }
  }

  lemma {:induction false} SplitWithoutSeparator(s: string, d: char)
    requires d !in s
    ensures Split(s, d) == [s]
    decreases |s|
  {
    if s != [] {
      SplitWithoutSeparator(s[1..], d);
      assert s == [s[0]] + s[1..];
    }
  }

  /** A split yields more than one piece exactly when the separator occurs. */
  lemma SplitHasTwoPiecesIffSeparator(s: string, d: char)
    ensures |Split(s, d)| >= 2 <==> d in s
  {
    if d in s {
      var i :| 0 <= i < |s| && s[i] == d;
      assert s == s[..i] + [d] + s[i + 1..];
      SplitAtSeparator(s[..i], s[i + 1..], d);
    } else {
      SplitWithoutSeparator(s, d);
    }
  }

  /** Splitting at a separator splits the two sides independently. */
  lemma {:induction false} SplitAtSeparator(a: string, b: string, d: char)
    ensures Split(a + [d] + b, d) == Split(a, d) + Split(b, d)
    decreases |a|
  {
    var s := a + [d] + b;
    if a == [] {
      assert s[1..] == b;
    } else {
      assert s[1..] == a[1..] + [d] + b;
      SplitAtSeparator(a[1..], b, d);
    }
  }

  /** `sep.join(ts)` in Python. */
  function JoinWith(ts: seq<string>, sep: string): (r: string)
    // the first part opens the result and the last part closes it
    ensures ts != [] ==> StartsWith(r, ts[0]) && EndsWith(r, ts[|ts| - 1])
    decreases |ts|
  {
    if ts == [] then ""
    else if |ts| == 1 then ts[0]
    else ts[0] + sep + JoinWith(ts[1..], sep)
  }

  /** Joining with a blank separator is blank exactly when every piece is blank. */
  lemma {:induction false} JoinBlankIffAllBlank(ts: seq<string>, sep: string)
    requires IsBlank(sep)
    ensures IsBlank(JoinWith(ts, sep)) <==> forall i :: 0 <= i < |ts| ==> IsBlank(ts[i])
    decreases |ts|
  {
    if |ts| > 1 {
      JoinBlankIffAllBlank(ts[1..], sep);
      BlankConcat(ts[0] + sep, JoinWith(ts[1..], sep));
      BlankConcat(ts[0], sep);
      assert forall i :: 1 <= i < |ts| ==> ts[i] == ts[1..][i - 1];
    }
  }

  function DigitChar(n: nat): (c: char)
    requires n < 10
    ensures '0' <= c <= '9' && c as int - '0' as int == n
  {
    (n + '0' as int) as char
  }

  predicate IsDigits(s: string) {
    forall i :: 0 <= i < |s| ==> '0' <= s[i] <= '9'
  }

  /** Python's `str(n)` / f-string rendering of a natural number. */
  function NatToString(n: nat): (s: string)
    ensures |s| >= 1 && IsDigits(s)
  {
    if n < 10 then [DigitChar(n)] else NatToString(n / 10) + [DigitChar(n % 10)]
  }

  /** The value of a string of decimal digits. */
  function DigitsValue(s: string): nat
    requires IsDigits(s)
    decreases |s|
  {
    if s == [] then 0
    else DigitsValue(s[..|s| - 1]) * 10 + (s[|s| - 1] as int - '0' as int)
  }

  lemma {:induction false} NatToStringRoundTrip(n: nat)
    ensures DigitsValue(NatToString(n)) == n
  {
    if n >= 10 {
      NatToStringRoundTrip(n / 10);
      var s := NatToString(n);
      assert s[..|s| - 1] == NatToString(n / 10);
    }
  }

  lemma NatToStringInjective(m: nat, n: nat)
    requires NatToString(m) == NatToString(n)
    ensures m == n
  {
    NatToStringRoundTrip(m);
    NatToStringRoundTrip(n);
  }
}
