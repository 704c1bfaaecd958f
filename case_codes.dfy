/** The case-code generator of `CasosService.generarCodigo`: a code is
    `{PREFIX}-{YEAR}-{SEQ}`, where SEQ is one more than the trailing number of
    the greatest existing code (in the store's text order) that starts with
    `{PREFIX}-{YEAR}-`, left-padded with '0' to four digits. */
module CaseCodes {
  import opened Common
  import opened Schema

  // ---------------------------------------------------------------- digits

  predicate IsDigit(c: char) { '0' <= c <= '9' }

  predicate AllDigits(s: string) {
    forall i :: 0 <= i < |s| ==> IsDigit(s[i])
  }

  function DigitChar(d: nat): (c: char)
    requires d < 10
    ensures IsDigit(c)
  {
    ('0' as int + d) as char
  }

  function DigitValue(c: char): (d: nat)
    requires IsDigit(c)
    ensures d < 10
  {
    c as int - '0' as int
  }

  function Pow10(k: nat): (p: nat)
    ensures p >= 1
  {
    if k == 0 then 1 else 10 * Pow10(k - 1)
  }

  /** `n.toString()` for a non-negative integer. */
  function NatToString(n: nat): (s: string)
    ensures |s| >= 1 && AllDigits(s)
    decreases n
  {
    if n < 10 then [DigitChar(n)] else NatToString(n / 10) + [DigitChar(n % 10)]
  }

  /** `parseInt(s, 10)` on a string of decimal digits: reading left to right,
      each digit is added to ten times the value read so far. */
  function ParseDigits(s: string): nat
    requires AllDigits(s)
    decreases |s|
  {
    if |s| == 0 then 0 else ParseDigits(s[..|s| - 1]) * 10 + DigitValue(s[|s| - 1])
  }

  /** A string of k digits denotes a number below 10^k. */
  lemma {:induction false} ParseBound(s: string)
    requires AllDigits(s)
    ensures ParseDigits(s) < Pow10(|s|)
    decreases |s|
  {
    if |s| > 0 {
      var init := s[..|s| - 1];
      ParseBound(init);
      assert ParseDigits(init) <= Pow10(|init|) - 1;
      assert ParseDigits(init) * 10 <= Pow10(|init|) * 10 - 10;
    }
  }

  /** Reading a digit in front of s adds its weight 10^|s|. */
  lemma AllDigitsPrepend(d: char, s: string)
    requires IsDigit(d) && AllDigits(s)
    ensures AllDigits([d] + s)
  {
    var w := [d] + s;
    forall i | 0 <= i < |w| ensures IsDigit(w[i]) {
      if i > 0 { assert w[i] == s[i - 1]; }
    }
  }

  /** Moving one more digit past the leading one multiplies its weight by ten. */
  lemma ShiftDigit(a: nat, q: nat, rest: nat, last: nat)
    ensures (a * q + rest) * 10 + last == a * (10 * q) + (rest * 10 + last)
  {
    assert (a * q) * 10 == a * (10 * q);
  }

  lemma {:induction false} ParseFront(d: char, s: string)
    requires IsDigit(d) && AllDigits(s)
    ensures AllDigits([d] + s)
    ensures ParseDigits([d] + s) == DigitValue(d) * Pow10(|s|) + ParseDigits(s)
    decreases |s|
  {
    var w := [d] + s;
    AllDigitsPrepend(d, s);
    if |s| == 0 {
      assert w[..0] == [];
    } else {
      var init := s[..|s| - 1];
      assert w[..|w| - 1] == [d] + init;
      ParseFront(d, init);
      var last := DigitValue(s[|s| - 1]);
      assert ParseDigits(w) == ParseDigits([d] + init) * 10 + last;
      assert ParseDigits(s) == ParseDigits(init) * 10 + last;
      ShiftDigit(DigitValue(d), Pow10(|init|), ParseDigits(init), last);
    }
  }

  /** `parseInt(n.toString(), 10) == n`. */
  lemma {:induction false} ParseNatToString(n: nat)
    ensures ParseDigits(NatToString(n)) == n
    decreases n
  {
    var s := NatToString(n);
    if n < 10 {
      assert s[..0] == [];
    } else {
      assert s[..|s| - 1] == NatToString(n / 10);
      ParseNatToString(n / 10);
    }
  }

  /** A number below 10^k needs at most k digits. */
  lemma {:induction false} NatToStringLength(n: nat, k: nat)
    requires 1 <= k && n < Pow10(k)
    ensures |NatToString(n)| <= k
    decreases k
  {
    if n >= 10 {
      assert k >= 2;
      assert n / 10 < Pow10(k - 1);
      NatToStringLength(n / 10, k - 1);
    }
  }

  function Zeros(k: nat): (z: string)
    ensures |z| == k && AllDigits(z)
    ensures forall i :: 0 <= i < k ==> z[i] == '0'
  {
    seq(k, i => '0')
  }

  /** `s.padStart(width, '0')`: pads on the left, never cuts. */
  function PadStart(s: string, width: nat): (r: string)
    ensures |r| == if |s| >= width then |s| else width
    ensures r[|r| - |s|..] == s
    ensures forall i :: 0 <= i < |r| - |s| ==> r[i] == '0'
  {
    if |s| >= width then s else Zeros(width - |s|) + s
  }

  /** Leading zeros do not change the number a digit string denotes. */
  lemma {:induction false} ParseLeadingZeros(k: nat, s: string)
    requires AllDigits(s)
    ensures AllDigits(Zeros(k) + s)
    ensures ParseDigits(Zeros(k) + s) == ParseDigits(s)
    decreases k
  {
    var w := Zeros(k) + s;
    assert AllDigits(w) by {
      forall i | 0 <= i < |w| ensures IsDigit(w[i]) {
        if i >= k { assert w[i] == s[i - k]; }
      }
    }
    if k > 0 {
      assert w == ['0'] + (Zeros(k - 1) + s);
      ParseLeadingZeros(k - 1, s);
      ParseFront('0', Zeros(k - 1) + s);
    } else {
      assert w == s;
    }
  }

  /** The formatted sequence number: `secuencia.toString().padStart(4, '0')`. */
  function FormatSequence(n: nat): (s: string)
    ensures AllDigits(s) && |s| >= 4
    ensures |s| == if |NatToString(n)| >= 4 then |NatToString(n)| else 4
    ensures s[|s| - |NatToString(n)|..] == NatToString(n)
  {
    var digits := NatToString(n);
    var r := PadStart(digits, 4);
    assert AllDigits(r) by {
      if |digits| < 4 { ParseLeadingZeros(4 - |digits|, digits); }
    }
    r
  }

  /** The padded sequence still reads back as the sequence number. */
  lemma FormatSequenceRoundTrip(n: nat)
    ensures ParseDigits(FormatSequence(n)) == n
  {
    var digits := NatToString(n);
    ParseNatToString(n);
    if |digits| < 4 {
      ParseLeadingZeros(4 - |digits|, digits);
    }
  }

  /** The sequence occupies exactly four digits precisely up to 9999; beyond
      that the padding widens rather than truncating. */
  lemma FormatSequenceWidth(n: nat)
    ensures |FormatSequence(n)| == 4 <==> n <= 9999
  {
    assert Pow10(4) == 10000 by {
      assert Pow10(1) == 10;
      assert Pow10(2) == 100;
      assert Pow10(3) == 1000;
    }
    if n <= 9999 {
      NatToStringLength(n, 4);
    }
    if |FormatSequence(n)| == 4 {
      FormatSequenceRoundTrip(n);
      ParseBound(FormatSequence(n));
    }
  }

  // ---------------------------------------------------------------- code layout

  function Prefix(t: CaseType): (p: string)
    ensures |p| == 3
  {
    match t
    case RECLAMO => "REC"
    case QUEJA => "QUE"
    case DENUNCIA => "DEN"
  }

  /** The `startsWith` pattern `${prefijo}-${year}-` of the lookup. */
  function CodePrefix(t: CaseType, year: nat): (p: string)
    ensures |p| >= 6 && p[..3] == Prefix(t) && p[|p| - 1] == '-'
  {
    Prefix(t) + "-" + NatToString(year) + "-"
  }

  function FormatCode(t: CaseType, year: nat, sequence: nat): string {
    CodePrefix(t, year) + FormatSequence(sequence)
  }

  /** The match of `/(\d+)$/`: the longest run of digits ending the string
      (empty when the string does not end in a digit). */
  function TrailingDigits(s: string): (d: string)
    ensures |d| <= |s| && AllDigits(d)
    decreases |s|
  {
    if |s| == 0 || !IsDigit(s[|s| - 1]) then ""
    else TrailingDigits(s[..|s| - 1]) + [s[|s| - 1]]
  }

  /** The match is the longest digit suffix: it ends the string, and the
      character before it, if any, is not a digit. */
  lemma {:induction false} TrailingDigitsIsLongestSuffix(s: string)
    ensures var d := TrailingDigits(s);
      && d == s[|s| - |d|..]
      && (|d| < |s| ==> !IsDigit(s[|s| - |d| - 1]))
    decreases |s|
  {
    if |s| > 0 && IsDigit(s[|s| - 1]) {
      var init := s[..|s| - 1];
      TrailingDigitsIsLongestSuffix(init);
      var e := TrailingDigits(init);
      assert init[|init| - |e|..] + [s[|s| - 1]] == s[|s| - |e| - 1..];
    }
  }

  /** After a non-digit, the trailing digit run is exactly the digits that follow. */
  lemma {:induction false} TrailingDigitsAfter(p: string, d: string)
    requires |p| > 0 && !IsDigit(p[|p| - 1]) && AllDigits(d)
    ensures TrailingDigits(p + d) == d
    decreases |d|
  {
    if |d| == 0 {
      assert p + d == p;
    } else {
      var init := d[..|d| - 1];
      assert (p + d)[..|p + d| - 1] == p + init;
      TrailingDigitsAfter(p, init);
      assert init + [d[|d| - 1]] == d;
    }
  }

  /** The sequence number a code carries: its trailing digits, or 0 when it has none. */
  function SequenceOf(c: string): nat {
    var d := TrailingDigits(c);
    if d == "" then 0 else ParseDigits(d)
  }

  // ---------------------------------------------------------------- text order

  /** The store's `orderBy: { codigo }`: lexicographic by character code. */
  predicate LexLe(a: string, b: string)
    decreases |a|
  {
    |a| == 0 || (|b| > 0 && (a[0] < b[0] || (a[0] == b[0] && LexLe(a[1..], b[1..]))))
  }

  lemma {:induction false} LexLeRefl(a: string)
    ensures LexLe(a, a)
    decreases |a|
  {
    if |a| > 0 { LexLeRefl(a[1..]); }
  }

  lemma {:induction false} LexLeTotal(a: string, b: string)
    ensures LexLe(a, b) || LexLe(b, a)
    decreases |a|
  {
    if |a| > 0 && |b| > 0 && a[0] == b[0] { LexLeTotal(a[1..], b[1..]); }
  }

  lemma {:induction false} LexLeAntisymmetric(a: string, b: string)
    requires LexLe(a, b) && LexLe(b, a)
    ensures a == b
    decreases |a|
  {
    if |a| > 0 {
      LexLeAntisymmetric(a[1..], b[1..]);
      assert a == [a[0]] + a[1..];
      assert b == [b[0]] + b[1..];
    }
  }

  lemma {:induction false} LexLeTransitive(a: string, b: string, c: string)
    requires LexLe(a, b) && LexLe(b, c)
    ensures LexLe(a, c)
    decreases |a|
  {
    if |a| > 0 && a[0] == b[0] && b[0] == c[0] {
      LexLeTransitive(a[1..], b[1..], c[1..]);
    }
  }

  /** Codes that share a prefix are ordered by what follows it. */
  lemma {:induction false} LexLeSharedPrefix(p: string, x: string, y: string)
    ensures LexLe(p + x, p + y) <==> LexLe(x, y)
    decreases |p|
  {
    if |p| > 0 {
      assert (p + x)[1..] == p[1..] + x;
      assert (p + y)[1..] == p[1..] + y;
      LexLeSharedPrefix(p[1..], x, y);
    } else {
      assert p + x == x && p + y == y;
    }
  }

  /** On digit strings of one length, text order is numeric order. */
  lemma {:induction false} LexLeDigits(x: string, y: string)
    requires |x| == |y| && AllDigits(x) && AllDigits(y)
    requires LexLe(x, y)
    ensures ParseDigits(x) <= ParseDigits(y)
    decreases |x|
  {
    if |x| > 0 {
      var x', y' := x[1..], y[1..];
      assert x == [x[0]] + x' && y == [y[0]] + y';
      ParseFront(x[0], x');
      ParseFront(y[0], y');
      if x[0] < y[0] {
        ParseBound(x');
        WeightedLess(DigitValue(x[0]), DigitValue(y[0]), Pow10(|x'|), ParseDigits(x'), ParseDigits(y'));
      } else {
        LexLeDigits(x', y');
      }
    }
  }

  /** A smaller leading digit outweighs anything the following digits add. */
  lemma WeightedLess(a: nat, b: nat, p: nat, u: nat, v: nat)
    requires a < b && u < p
    ensures a * p + u < b * p + v
  {
    assert (a + 1) * p <= b * p by {
      assert b * p - (a + 1) * p == (b - a - 1) * p;
    }
  }

  // ---------------------------------------------------------------- the lookup

  predicate Matches(c: string, prefix: string) {
    StartsWith(c, prefix)
  }

  /** `c` is what `findFirst({ where: { codigo: { startsWith } }, orderBy: { codigo: 'desc' } })`
      returns: a matching code at least as great as every other matching code. */
  predicate IsLastCode(codes: set<string>, prefix: string, c: string) {
    && c in codes
    && Matches(c, prefix)
    && forall x :: x in codes && Matches(x, prefix) ==> LexLe(x, c)
  }

  lemma {:induction false} LastCodeExists(codes: set<string>, prefix: string) returns (c: string)
    requires exists x :: x in codes && Matches(x, prefix)
    ensures IsLastCode(codes, prefix, c)
    decreases codes
  {
    var x :| x in codes && Matches(x, prefix);
    var rest := codes - {x};
    if exists y :: y in rest && Matches(y, prefix) {
      var m := LastCodeExists(rest, prefix);
      LexLeTotal(x, m);
      if LexLe(x, m) {
        c := m;
      } else {
        c := x;
        forall y | y in codes && Matches(y, prefix) ensures LexLe(y, c) {
          if y == x { LexLeRefl(x); } else { LexLeTransitive(y, m, x); }
        }
      }
    } else {
      c := x;
      LexLeRefl(x);
    }
  }

  lemma LastCodeUnique(codes: set<string>, prefix: string, c1: string, c2: string)
    requires IsLastCode(codes, prefix, c1) && IsLastCode(codes, prefix, c2)
    ensures c1 == c2
  {
    LexLeAntisymmetric(c1, c2);
  }

  /** The answer of the lookup, if any code matches. */
  ghost function LastCode(codes: set<string>, prefix: string): (r: Option<string>)
    ensures r.None? <==> !exists x :: x in codes && Matches(x, prefix)
    ensures r.Some? ==> IsLastCode(codes, prefix, r.value)
  {
    if exists x :: x in codes && Matches(x, prefix) then
      assert exists c :: IsLastCode(codes, prefix, c) by {
        var c := LastCodeExists(codes, prefix);
      }
      var c :| IsLastCode(codes, prefix, c);
      Some(c)
    else
      None
  }

  /** Lines 43-50: 1 without a previous code, otherwise its trailing number plus one. */
  function SequenceAfter(last: Option<string>): (n: nat)
    ensures n >= 1
    ensures last.None? ==> n == 1
    ensures last.Some? ==> n == SequenceOf(last.value) + 1
  {
    match last
    case None => 1
    case Some(c) =>
      var d := TrailingDigits(c);
      if d != "" then ParseDigits(d) + 1 else 1
  }

  /** The code `generarCodigo` produces for the store's current codes. */
  ghost function GeneratedCode(codes: set<string>, t: CaseType, year: nat): string {
    FormatCode(t, year, SequenceAfter(LastCode(codes, CodePrefix(t, year))))
  }

  /** `generarCodigo(tipo)` with the year of the current date passed in. */
  method GenerarCodigo(codes: set<string>, t: CaseType, year: nat) returns (code: string)
    ensures code == GeneratedCode(codes, t, year)
  {
    var prefix := CodePrefix(t, year);
    var last: Option<string> := None;
    if exists x :: x in codes && Matches(x, prefix) {
      var found := LastCodeExists(codes, prefix);
      var c :| c in codes && IsLastCode(codes, prefix, c);
      LastCodeUnique(codes, prefix, c, LastCode(codes, prefix).value);
      last := Some(c);
    }
    code := FormatCode(t, year, SequenceAfter(last));
  }

  // ---------------------------------------------------------------- properties

  /** Every code is `{PREFIX}-{YEAR}-` followed by at least four digits that read
      back as the chosen sequence number, which is at least 1. */
  lemma GeneratedCodeLayout(codes: set<string>, t: CaseType, year: nat)
    ensures var code, p := GeneratedCode(codes, t, year), CodePrefix(t, year);
      && StartsWith(code, p)
      && |code| >= |p| + 4
      && AllDigits(code[|p|..])
      && ParseDigits(code[|p|..]) == SequenceAfter(LastCode(codes, p)) >= 1
  {
    var p := CodePrefix(t, year);
    var n := SequenceAfter(LastCode(codes, p));
    var code := GeneratedCode(codes, t, year);
    assert code == p + FormatSequence(n);
    assert code[|p|..] == FormatSequence(n);
    assert code[..|p|] == p;
    FormatSequenceRoundTrip(n);
  }

  /** The year of the worked examples, printed. */
  lemma Year2025Prefix()
    ensures CodePrefix(RECLAMO, 2025) == "REC-2025-"
  {
    assert NatToString(2) == "2";
    assert NatToString(20) == "20";
    assert NatToString(202) == "202";
    assert NatToString(2025) == "2025";
  }

  /** The first code of a type in a year carries sequence 0001. */
  lemma FirstCodeOfYear(codes: set<string>, t: CaseType, year: nat)
    requires forall x :: x in codes ==> !Matches(x, CodePrefix(t, year))
    ensures GeneratedCode(codes, t, year) == CodePrefix(t, year) + "0001"
  {
    assert NatToString(1) == "1";
    assert PadStart("1", 4) == "000" + "1";
  }

  /** Every code of a prefix and year has exactly four digits after the prefix,
      i.e. every sequence used so far is at most 9999. */
  predicate FourDigitSequences(codes: set<string>, prefix: string) {
    forall c :: c in codes && Matches(c, prefix) ==>
      |c| == |prefix| + 4 && AllDigits(c[|prefix|..])
  }

  /** A code that is `prefix` followed by digits carries those digits as its sequence. */
  lemma SequenceOfCode(prefix: string, c: string)
    requires |prefix| > 0 && !IsDigit(prefix[|prefix| - 1])
    requires Matches(c, prefix) && AllDigits(c[|prefix|..])
    ensures SequenceOf(c) == ParseDigits(c[|prefix|..])
  {
    var d := c[|prefix|..];
    assert c == prefix + d by { assert c[..|prefix|] == prefix; }
    TrailingDigitsAfter(prefix, d);
  }

  /** While every sequence has four digits, the last code in text order carries
      the greatest sequence. */
  lemma LastCodeHasGreatestSequence(codes: set<string>, prefix: string, c: string)
    requires |prefix| > 0 && !IsDigit(prefix[|prefix| - 1])
    requires FourDigitSequences(codes, prefix)
    requires IsLastCode(codes, prefix, c)
    ensures forall x :: x in codes && Matches(x, prefix) ==> SequenceOf(x) <= SequenceOf(c)
  {
    var d := c[|prefix|..];
    assert c == prefix + d by { assert c[..|prefix|] == prefix; }
    SequenceOfCode(prefix, c);
    forall x | x in codes && Matches(x, prefix)
      ensures SequenceOf(x) <= SequenceOf(c)
    {
      var e := x[|prefix|..];
      assert x == prefix + e by { assert x[..|prefix|] == prefix; }
      SequenceOfCode(prefix, x);
      LexLeSharedPrefix(prefix, e, d);
      LexLeDigits(e, d);
    }
  }

  /** While every sequence of the prefix and year is at most 9999, the new code
      is new, and its sequence exceeds every sequence already used. */
  lemma GeneratedCodeIsFresh(codes: set<string>, t: CaseType, year: nat)
    requires FourDigitSequences(codes, CodePrefix(t, year))
    ensures GeneratedCode(codes, t, year) !in codes
    ensures forall x :: x in codes && Matches(x, CodePrefix(t, year)) ==>
      SequenceOf(x) < SequenceAfter(LastCode(codes, CodePrefix(t, year)))
  {
    var p := CodePrefix(t, year);
    var last := LastCode(codes, p);
    var n := SequenceAfter(last);
    var code := GeneratedCode(codes, t, year);
    var f := FormatSequence(n);
    assert code == p + f;
    assert Matches(code, p) by { assert code[..|p|] == p; }
    if last.Some? {
      LastCodeHasGreatestSequence(codes, p, last.value);
      if code in codes {
        assert code[|p|..] == f;
        SequenceOfCode(p, code);
        FormatSequenceRoundTrip(n);
        assert false;
      }
    }
  }

  /** A code prefix is never the start of a longer one: the year digits run
      up to the closing '-', so a code carrying one prefix cannot carry another. */
  lemma CodePrefixesDoNotNest(t: CaseType, year: nat, t': CaseType, year': nat, rest: string)
    requires Matches(CodePrefix(t, year) + rest, CodePrefix(t', year'))
    ensures CodePrefix(t, year) == CodePrefix(t', year')
  {
    var p, q := CodePrefix(t, year), CodePrefix(t', year');
    var y, y' := NatToString(year), NatToString(year');
    var code := p + rest;
    assert code[..|q|] == q;
    // A longer year would put a digit where the shorter one has its '-'.
    var m := if |y| < |y'| then |y| else |y'|;
    assert p[4 + m] == code[4 + m] == q[4 + m];
    assert p[4 + m] == '-' <==> m == |y|;
    assert q[4 + m] == '-' <==> m == |y'|;
    assert code[..|q|] == p;
  }

  /** Adding a code never changes the code generated under another prefix
      (another type, or the same type in another year): each prefix's
      sequence is read only from codes that start with it. */
  lemma OtherTypesUnaffected(codes: set<string>, t: CaseType, year: nat, n: nat, t': CaseType, year': nat)
    requires CodePrefix(t, year) != CodePrefix(t', year')
    ensures GeneratedCode(codes + {FormatCode(t, year, n)}, t', year') == GeneratedCode(codes, t', year')
  {
    var added := FormatCode(t, year, n);
    var p' := CodePrefix(t', year');
    assert !Matches(added, p') by {
      if Matches(added, p') {
        CodePrefixesDoNotNest(t, year, t', year', FormatSequence(n));
      }
    }
    var before := LastCode(codes, p');
    var after := LastCode(codes + {added}, p');
    if before.Some? {
      assert IsLastCode(codes + {added}, p', before.value);
      LastCodeUnique(codes + {added}, p', before.value, after.value);
    }
    assert after == before;
  }

  /** The only code of a prefix is the last one. */
  lemma SingleCodeIsLast(codes: set<string>, prefix: string, c: string)
    requires c in codes && Matches(c, prefix)
    requires forall x :: x in codes && x != c ==> !Matches(x, prefix)
    ensures LastCode(codes, prefix) == Some(c)
  {
    LexLeRefl(c);
    assert IsLastCode(codes, prefix, c);
    LastCodeUnique(codes, prefix, c, LastCode(codes, prefix).value);
  }

  lemma Parse0001()
    ensures ParseDigits("0001") == 1
  {
    ParseLeadingZeros(3, "1");
    assert Zeros(3) + "1" == "0001";
  }

  lemma Format0002()
    ensures FormatSequence(2) == "0002"
  {
    assert NatToString(2) == "2";
    assert Zeros(3) + "2" == "0002";
  }

  lemma FirstComplaintCode()
    ensures GeneratedCode({}, RECLAMO, 2025) == "REC-2025-0001"
  {
    Year2025Prefix();
    FirstCodeOfYear({}, RECLAMO, 2025);
    assert "REC-2025-" + "0001" == "REC-2025-0001";
  }

  /** With one code `{prefix}-{year}-0001` stored, it is the last code and
      carries sequence 1. */
  lemma FirstComplaintIsLast(t: CaseType, year: nat)
    ensures var p := CodePrefix(t, year);
      && LastCode({p + "0001"}, p) == Some(p + "0001")
      && SequenceOf(p + "0001") == 1
  {
    var p := CodePrefix(t, year);
    var first := p + "0001";
    assert first[..|p|] == p;
    SingleCodeIsLast({first}, p, first);
    assert first[|p|..] == "0001";
    SequenceOfCode(p, first);
    Parse0001();
  }

  /** The worked example: the first code of a type in a year ends in 0001 and
      the one after it in 0002. */
  lemma ComplaintSequenceExample(t: CaseType, year: nat)
    ensures GeneratedCode({}, t, year) == CodePrefix(t, year) + "0001"
    ensures GeneratedCode({CodePrefix(t, year) + "0001"}, t, year) == CodePrefix(t, year) + "0002"
  {
    FirstCodeOfYear({}, t, year);
    FirstComplaintIsLast(t, year);
    Format0002();
  }

  // ---------------------------------------------------------------- overflow

  lemma Parse9999()
    ensures ParseDigits("9999") == 9999
  {
    assert "9999"[..3] == "999";
    assert "999"[..2] == "99";
    assert "99"[..1] == "9";
    assert "9"[..0] == "";
  }

  lemma Format10000()
    ensures FormatSequence(10000) == "10000"
  {
    assert NatToString(1) == "1";
    assert NatToString(10) == "10";
    assert NatToString(100) == "100";
    assert NatToString(1000) == "1000";
    assert NatToString(10000) == "10000";
  }

  /** In text order `{prefix}10000` comes before `{prefix}9999`. */
  lemma OverflowTextOrder(p: string)
    ensures LexLe(p + "10000", p + "9999")
  {
    assert LexLe("10000", "9999");
    LexLeSharedPrefix(p, "10000", "9999");
  }

  /** With sequences 9999 and 10000 stored, the lookup returns the code of 9999. */
  lemma OverflowLastCode(p: string)
    ensures LastCode({p + "9999", p + "10000"}, p) == Some(p + "9999")
  {
    var a, b := p + "9999", p + "10000";
    assert a[..|p|] == p;
    forall x | x in {a, b} && Matches(x, p) ensures LexLe(x, a) {
      if x == a { LexLeRefl(a); } else { OverflowTextOrder(p); }
    }
    assert IsLastCode({a, b}, p, a);
    LastCodeUnique({a, b}, p, a, LastCode({a, b}, p).value);
  }

  /** After the code of 9999 the next sequence is 10000. */
  lemma OverflowSequence(p: string)
    requires |p| > 0 && !IsDigit(p[|p| - 1])
    ensures SequenceAfter(Some(p + "9999")) == 10000
  {
    var a := p + "9999";
    assert a[..|p|] == p;
    assert a[|p|..] == "9999";
    SequenceOfCode(p, a);
    Parse9999();
  }

  /** As written: once `{prefix}10000` exists beside `{prefix}9999`, the text
      order still ranks `{prefix}9999` highest, so 10000 is generated again,
      for every type and year. */
  lemma OverflowRepeatsCode(t: CaseType, year: nat)
    ensures var p := CodePrefix(t, year);
      var codes := {p + "9999", p + "10000"};
      && GeneratedCode(codes, t, year) == p + "10000"
      && GeneratedCode(codes, t, year) in codes
  {
    var p := CodePrefix(t, year);
    OverflowLastCode(p);
    OverflowSequence(p);
    Format10000();
  }

  /** The greatest sequence number among the codes of a prefix (0 when none). */
  ghost function MaxSequence(codes: set<string>, prefix: string): (m: nat)
    ensures forall x :: x in codes && Matches(x, prefix) ==> SequenceOf(x) <= m
    ensures m == 0 || exists x :: x in codes && Matches(x, prefix) && SequenceOf(x) == m
    decreases codes
  {
    if codes == {} then 0
    else
      var c :| c in codes;
      var rest := MaxSequence(codes - {c}, prefix);
      if Matches(c, prefix) && SequenceOf(c) > rest then SequenceOf(c) else rest
  }

  /** Corrected generator: one more than the numerically greatest sequence. */
  ghost function NumericCode(codes: set<string>, t: CaseType, year: nat): string {
    FormatCode(t, year, MaxSequence(codes, CodePrefix(t, year)) + 1)
  }

  /** The corrected generator never produces a code that exists, whatever the
      sequences used so far. */
  lemma NumericCodeIsFresh(codes: set<string>, t: CaseType, year: nat)
    ensures NumericCode(codes, t, year) !in codes
  {
    var p := CodePrefix(t, year);
    var n := MaxSequence(codes, p) + 1;
    var f := FormatSequence(n);
    var code := NumericCode(codes, t, year);
    assert code == p + f;
    if code in codes {
      assert Matches(code, p) by { assert code[..|p|] == p; }
      assert code[|p|..] == f;
      SequenceOfCode(p, code);
      FormatSequenceRoundTrip(n);
      assert false;
    }
  }

  /** Below the overflow the corrected generator agrees with the code as written. */
  lemma NumericCodeAgreesBelowOverflow(codes: set<string>, t: CaseType, year: nat)
    requires FourDigitSequences(codes, CodePrefix(t, year))
    ensures NumericCode(codes, t, year) == GeneratedCode(codes, t, year)
  {
    var p := CodePrefix(t, year);
    var last := LastCode(codes, p);
    var m := MaxSequence(codes, p);
    if last.Some? {
      var c := last.value;
      LastCodeHasGreatestSequence(codes, p, c);
      assert SequenceOf(c) <= m;
      if m != 0 {
        var x :| x in codes && Matches(x, p) && SequenceOf(x) == m;
        assert m <= SequenceOf(c);
      }
      assert SequenceAfter(last) == m + 1;
    } else {
      assert m == 0;
      assert SequenceAfter(last) == m + 1;
    }
  }
}
