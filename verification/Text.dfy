/**
  The string primitives the source takes from its standard library: decimal
  printing and parsing, splitting on a separator, trimming and ASCII lower case.
 */
module Text {
  import opened Basics

  const INT64_MIN: int := -0x8000_0000_0000_0000
  const INT64_MAX: int := 0x7FFF_FFFF_FFFF_FFFF

  // ---------------------------------------------------------------------------
  // Decimal numbers.
  // ---------------------------------------------------------------------------

  predicate IsDigit(c: char) { '0' <= c <= '9' }

  function DigitChar(d: nat): (c: char)
    requires d < 10
    ensures IsDigit(c)
  {
    '0' + d as char
  }

  function DigitValue(c: char): (d: nat)
    requires IsDigit(c)
    ensures d < 10
  {
    (c - '0') as nat
  }

  function FormatNat(n: nat): string {
    if n < 10 then [DigitChar(n)] else FormatNat(n / 10) + [DigitChar(n % 10)]
  }

  /** fmt's %d and strconv.Itoa. */
  function Itoa(n: int): string {
    if n < 0 then "-" + FormatNat(-n) else FormatNat(n)
  }

  function ParseNat(s: string): Option<nat> {
    if s == [] then None
    else
      var n := |s| - 1;
      if !IsDigit(s[n]) then None
      else if n == 0 then Some(DigitValue(s[n]))
      else match ParseNat(s[..n])
        case None => None
        case Some(v) => Some(10 * v + DigitValue(s[n]))
  }

  function InRange(n: int): Option<int> { if INT64_MIN <= n <= INT64_MAX then Some(n) else None }

  function Signed(negative: bool, v: nat): int { if negative then 0 - v else v }

  /** strconv.Atoi: an optional sign, decimal digits, and the range of a 64-bit int. */
  function Atoi(s: string): Option<int> {
    if s == [] then None
    else
      var signed := s[0] == '-' || s[0] == '+';
      match ParseNat(if signed then s[1..] else s)
      case None => None
      case Some(v) => InRange(Signed(s[0] == '-', v))
  }

  predicate AllDigits(s: string) { forall i :: 0 <= i < |s| ==> IsDigit(s[i]) }

  lemma {:induction false} ParseFormatNat(n: nat)
    ensures AllDigits(FormatNat(n)) && FormatNat(n) != []
    ensures ParseNat(FormatNat(n)) == Some(n)
  {
    if n >= 10 {
      ParseFormatNat(n / 10);
      var s := FormatNat(n);
      assert s[..|s| - 1] == FormatNat(n / 10);
    }
  }

  lemma AtoiNegative(v: nat)
    ensures Atoi("-" + FormatNat(v)) == InRange(Signed(true, v))
  {
    ParseFormatNat(v);
    var s := "-" + FormatNat(v);
    assert s[0] == '-' && s[1..] == FormatNat(v);
  }

  lemma AtoiPlain(v: nat)
    ensures Atoi(FormatNat(v)) == InRange(v)
  {
    ParseFormatNat(v);
    assert IsDigit(FormatNat(v)[0]);
  }

  /** Parsing inverts printing exactly over the range of a 64-bit int. */
  lemma AtoiItoa(n: int)
    ensures Atoi(Itoa(n)) == InRange(n)
  {
    if n < 0 {
      AtoiNegative(-n);
    } else {
      AtoiPlain(n);
    }
  }

  lemma SignShows(n: int)
    ensures Itoa(n) != [] && (Itoa(n)[0] == '-' <==> n < 0)
  {
    ParseFormatNat(if n < 0 then -n else n);
  }

  lemma ItoaInjective(m: int, n: int)
    requires Itoa(m) == Itoa(n)
    ensures m == n
  {
    SignShows(m);
    SignShows(n);
    if m < 0 && n < 0 {
      assert Itoa(m)[1..] == FormatNat(-m) && Itoa(n)[1..] == FormatNat(-n);
      FormatNatInjective(-m, -n);
    } else if m >= 0 && n >= 0 {
      FormatNatInjective(m, n);
    }
  }

  /** Numbers are written in base ten, most significant digit first. */
  lemma DecimalExample()
    ensures Itoa(65535) == "65535" && Itoa(10) == "10" && Itoa(-10) == "-10"
  {
    assert FormatNat(6) == "6";
    assert FormatNat(65) == "6" + "5";
    assert FormatNat(655) == "65" + "5";
    assert FormatNat(6553) == "655" + "3";
    assert FormatNat(65535) == "6553" + "5";
    assert FormatNat(1) == "1";
    assert FormatNat(10) == "1" + "0";
  }

  /** A plus sign is read, an empty or broken number is not. */
  lemma AtoiExample()
    ensures Atoi("+42") == Some(42) && Atoi("") == None && Atoi("4x") == None
  {
    assert "+42"[1..] == "42" && "42"[..1] == "4";
    assert ParseNat("4") == Some(4);
    assert ParseNat("42") == Some(42);
  }

  lemma {:induction false} FormatNatInjective(m: nat, n: nat)
    requires FormatNat(m) == FormatNat(n)
    ensures m == n
  {
    ParseFormatNat(m);
    ParseFormatNat(n);
  }

  // ---------------------------------------------------------------------------
  // Splitting and joining.
  // ---------------------------------------------------------------------------

  /** strings.Split on one separator: always at least one field. */
  function Split(s: string, sep: char): (fields: seq<string>)
    ensures fields != []
  {
    if s == [] then [[]]
    else
      var rest := Split(s[1..], sep);
      if s[0] == sep then [[]] + rest else [[s[0]] + rest[0]] + rest[1..]
  }

  function Join(fields: seq<string>, sep: char): string
    requires fields != []
  {
    if |fields| == 1 then fields[0] else fields[0] + [sep] + Join(fields[1..], sep)
  }

  lemma {:induction false} SplitFieldsLackSep(s: string, sep: char)
    ensures forall i :: 0 <= i < |Split(s, sep)| ==> sep !in Split(s, sep)[i]
  {
    if s != [] {
      SplitFieldsLackSep(s[1..], sep);
    }
  }

  lemma {:induction false} SplitPlain(s: string, sep: char)
    requires sep !in s
    ensures Split(s, sep) == [s]
  {
    if s != [] {
      SplitPlain(s[1..], sep);
      assert [s[0]] + s[1..] == s;
    }
  }

  lemma {:induction false} SplitAtFirst(field: string, rest: string, sep: char)
    requires sep !in field
    ensures Split(field + [sep] + rest, sep) == [field] + Split(rest, sep)
  {
    var s := field + [sep] + rest;
    if field == [] {
      assert s[1..] == rest;
    } else {
      assert s[1..] == field[1..] + [sep] + rest;
      SplitAtFirst(field[1..], rest, sep);
      assert [field[0]] + field[1..] == field;
    }
  }

  /** Splitting inverts joining when no field holds the separator. */
  lemma {:induction false} SplitJoin(fields: seq<string>, sep: char)
    requires fields != [] && forall i :: 0 <= i < |fields| ==> sep !in fields[i]
    ensures Split(Join(fields, sep), sep) == fields
    decreases |fields|
  {
    if |fields| == 1 {
      SplitPlain(fields[0], sep);
    } else {
      SplitAtFirst(fields[0], Join(fields[1..], sep), sep);
      SplitJoin(fields[1..], sep);
    }
  }

  /** Two texts that agree from their start on agree on their first field. */
  lemma FirstFieldUnique(a: string, b: string, sep: char, restA: string, restB: string)
    requires sep !in a && sep !in b
    requires a + [sep] + restA == b + [sep] + restB
    ensures a == b
  {
    SplitAtFirst(a, restA, sep);
    SplitAtFirst(b, restB, sep);
    assert Split(a + [sep] + restA, sep)[0] == a;
    assert Split(b + [sep] + restB, sep)[0] == b;
  }

  // ---------------------------------------------------------------------------
  // Trimming and case.
  // ---------------------------------------------------------------------------

  /** Unicode White_Space, as strings.TrimSpace sees it. */
  predicate IsSpace(c: char) {
    || '\t' <= c <= '\r' || c == ' ' || c == '\U{0085}' || c == '\U{00A0}' || c == '\U{1680}'
    || '\U{2000}' <= c <= '\U{200A}' || c == '\U{2028}' || c == '\U{2029}' || c == '\U{202F}'
    || c == '\U{205F}' || c == '\U{3000}'
  }

  function TrimLeft(s: string): string {
    if s != [] && IsSpace(s[0]) then TrimLeft(s[1..]) else s
  }

  function TrimRight(s: string): string {
    if s != [] && IsSpace(s[|s| - 1]) then TrimRight(s[..|s| - 1]) else s
  }

  function TrimSpace(s: string): string { TrimRight(TrimLeft(s)) }

  /** No white space at either end. */
  predicate Trimmed(s: string) {
    s == [] || (!IsSpace(s[0]) && !IsSpace(s[|s| - 1]))
  }

  lemma {:induction false} TrimRightKeepsStart(s: string)
    ensures TrimRight(s) <= s
    ensures TrimRight(s) == [] || !IsSpace(TrimRight(s)[|TrimRight(s)| - 1])
  {
    if s != [] && IsSpace(s[|s| - 1]) {
      TrimRightKeepsStart(s[..|s| - 1]);
    }
  }

  lemma {:induction false} TrimLeftKeepsEnd(s: string)
    ensures |TrimLeft(s)| <= |s| && TrimLeft(s) == s[|s| - |TrimLeft(s)|..]
    ensures TrimLeft(s) == [] || !IsSpace(TrimLeft(s)[0])
  {
    if s != [] && IsSpace(s[0]) {
      TrimLeftKeepsEnd(s[1..]);
    }
  }

  /** Trimming yields a trimmed piece of the text, and the text itself exactly when it is trimmed. */
  lemma TrimSpaceMeaning(s: string)
    ensures Trimmed(TrimSpace(s))
    ensures TrimSpace(s) == s <==> Trimmed(s)
    ensures forall c :: c in TrimSpace(s) ==> c in s
  {
    TrimLeftKeepsEnd(s);
    TrimRightKeepsStart(TrimLeft(s));
  }

  function LowerChar(c: char): char {
    if 'A' <= c <= 'Z' then c - 'A' + 'a' else c
  }

  function ToLower(s: string): string {
    seq(|s|, i requires 0 <= i < |s| => LowerChar(s[i]))
  }
}
