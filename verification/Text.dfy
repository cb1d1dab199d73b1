/** The string operations of Go's standard library that the router's decisions rest on,
    for ASCII text, with the facts about them that the proofs need. */
module Text {
  predicate IsSpace(c: char) {
    c == ' ' || c == '\t' || c == '\n' || c == '\r' || c == 11 as char || c == 12 as char
  }

  function TrimLeft(s: string): string {
    if s != [] && IsSpace(s[0]) then TrimLeft(s[1..]) else s
  }

  function TrimRight(s: string): string {
    if s != [] && IsSpace(s[|s| - 1]) then TrimRight(s[..|s| - 1]) else s
  }

  function TrimSpace(s: string): string {
    TrimRight(TrimLeft(s))
  }

  function LowerChar(c: char): char {
    if 'A' <= c <= 'Z' then (c as int + 32) as char else c
  }

  function ToLower(s: string): string {
    seq(|s|, i requires 0 <= i < |s| => LowerChar(s[i]))
  }

  /** strings.TrimPrefix. */
  function TrimPrefix(s: string, prefix: string): string {
    if prefix <= s then s[|prefix|..] else s
  }

  function DashToUnderscore(s: string): string {
    seq(|s|, i requires 0 <= i < |s| => if s[i] == '-' then '_' else s[i])
  }

  /** normalizeStrategy in internal/routing/validate.go. */
  function Normalize(s: string): string {
    DashToUnderscore(ToLower(TrimSpace(s)))
  }

  lemma {:induction false} TrimLeftFacts(s: string)
    ensures TrimLeft(s) == [] || !IsSpace(TrimLeft(s)[0])
  {
    if s != [] && IsSpace(s[0]) {
      TrimLeftFacts(s[1..]);
    }
  }

  lemma {:induction false} TrimRightFacts(s: string)
    ensures TrimRight(s) == [] || !IsSpace(TrimRight(s)[|TrimRight(s)| - 1])
    ensures TrimRight(s) <= s
  {
    if s != [] && IsSpace(s[|s| - 1]) {
      TrimRightFacts(s[..|s| - 1]);
    }
  }

  /** Text without outer spaces is not trimmed further. */
  lemma {:induction false} TrimmedEnds(s: string)
    ensures TrimSpace(s) == [] || (!IsSpace(TrimSpace(s)[0]) && !IsSpace(TrimSpace(s)[|TrimSpace(s)| - 1]))
    ensures TrimSpace(TrimSpace(s)) == TrimSpace(s)
  {
    TrimLeftFacts(s);
    TrimRightFacts(TrimLeft(s));
  }

  ghost predicate Blank(s: string) {
    forall i :: 0 <= i < |s| ==> IsSpace(s[i])
  }

  lemma {:induction false} TrimLeftSplits(s: string) returns (before: string)
    ensures Blank(before) && s == before + TrimLeft(s)
  {
    before := "";
    if s != [] && IsSpace(s[0]) {
      var rest := TrimLeftSplits(s[1..]);
      before := [s[0]] + rest;
      assert s == [s[0]] + s[1..];
    }
  }

  lemma {:induction false} TrimRightSplits(s: string) returns (behind: string)
    ensures Blank(behind) && s == TrimRight(s) + behind
  {
    behind := "";
    if s != [] && IsSpace(s[|s| - 1]) {
      var rest := TrimRightSplits(s[..|s| - 1]);
      behind := rest + [s[|s| - 1]];
      assert s == s[..|s| - 1] + [s[|s| - 1]];
    }
  }

  /** Trimming takes off spaces at both ends, all of them (TrimmedEnds), and nothing else. */
  lemma {:induction false} TrimSplits(s: string) returns (before: string, behind: string)
    ensures Blank(before) && Blank(behind) && s == before + TrimSpace(s) + behind
  {
    before := TrimLeftSplits(s);
    behind := TrimRightSplits(TrimLeft(s));
  }

  lemma {:induction false} TrimLeftOf(before: string, s: string)
    requires Blank(before) && (s == "" || !IsSpace(s[0]))
    ensures TrimLeft(before + s) == s
  {
    if before == "" {
      assert before + s == s;
    } else {
      assert (before + s)[0] == before[0] && (before + s)[1..] == before[1..] + s;
      TrimLeftOf(before[1..], s);
    }
  }

  lemma {:induction false} TrimRightOf(s: string, behind: string)
    requires Blank(behind) && (s == "" || !IsSpace(s[|s| - 1]))
    ensures TrimRight(s + behind) == s
  {
    if behind == "" {
      assert s + behind == s;
    } else {
      var n := |behind| - 1;
      assert (s + behind)[|s + behind| - 1] == behind[n] && (s + behind)[..|s + behind| - 1] == s + behind[..n];
      TrimRightOf(s, behind[..n]);
    }
  }

  /** Text without outer spaces is what trimming leaves of it, whatever spaces surround it. */
  lemma {:induction false} TrimSpaceOf(before: string, s: string, behind: string)
    requires Blank(before) && Blank(behind) && s != "" && !IsSpace(s[0]) && !IsSpace(s[|s| - 1])
    ensures TrimSpace(before + s + behind) == s
  {
    assert before + s + behind == before + (s + behind);
    TrimLeftOf(before, s + behind);
    TrimRightOf(s, behind);
  }

  /** Letters lose their case, and only letters change. */
  lemma LowerLetters(k: nat)
    requires k < 26
    ensures ToLower([('A' as int + k) as char]) == ToLower([('a' as int + k) as char]) == [('a' as int + k) as char]
    ensures ToLower("0_-./:") == "0_-./:"
  {
  }

  /** Normalizing twice is normalizing once. */
  lemma {:induction false} NormalizeIdempotent(s: string)
    ensures Normalize(Normalize(s)) == Normalize(s)
  {
    TrimmedEnds(s);
    var t := TrimSpace(s);
    var n := Normalize(s);
    assert |n| == |t| && forall i :: 0 <= i < |t| ==> n[i] == if LowerChar(t[i]) == '-' then '_' else LowerChar(t[i]);
    assert TrimSpace(n) == n;
    assert ToLower(n) == n;
    assert DashToUnderscore(n) == n;
  }

  /** Normalizing plain lower-case text changes nothing. */
  lemma {:induction false} NormalizePlain(s: string)
    requires forall i :: 0 <= i < |s| ==> !IsSpace(s[i]) && !('A' <= s[i] <= 'Z') && s[i] != '-'
    ensures Normalize(s) == s && TrimSpace(s) == s
  {
    assert TrimSpace(s) == s;
    assert ToLower(s) == s;
    assert DashToUnderscore(s) == s;
  }

  // ---------- bytewise order ----------

  predicate StrLess(a: string, b: string) {
    if b == [] then false
    else if a == [] then true
    else a[0] < b[0] || (a[0] == b[0] && StrLess(a[1..], b[1..]))
  }

  lemma {:induction false} StrLessAsym(a: string, b: string)
    ensures StrLess(a, b) ==> !StrLess(b, a)
  {
    if a != [] && b != [] {
      StrLessAsym(a[1..], b[1..]);
    }
  }

  lemma {:induction false} StrLessNegTrans(a: string, b: string, c: string)
    ensures StrLess(a, c) ==> StrLess(a, b) || StrLess(b, c)
  {
    if a != [] && b != [] && c != [] {
      StrLessNegTrans(a[1..], b[1..], c[1..]);
    }
  }

  lemma {:induction false} StrLessTotal(a: string, b: string)
    ensures a == b || StrLess(a, b) || StrLess(b, a)
  {
    if a != [] && b != [] {
      StrLessTotal(a[1..], b[1..]);
      if a[1..] == b[1..] && a[0] == b[0] {
        assert a == [a[0]] + a[1..] && b == [b[0]] + b[1..];
      }
    }
  }

  /** a and b agree before k, and a has the smaller character there. */
  predicate DiffersAt(a: string, b: string, k: int) {
    0 <= k < |a| && k < |b| && a[..k] == b[..k] && a[k] < b[k]
  }

  lemma {:induction false} DifferenceDecides(a: string, b: string, k: nat)
    requires DiffersAt(a, b, k)
    ensures StrLess(a, b)
  {
    if k > 0 {
      assert a[0] == a[..k][0] && b[0] == b[..k][0];
      assert a[1..][..k - 1] == a[..k][1..] && b[1..][..k - 1] == b[..k][1..];
      DifferenceDecides(a[1..], b[1..], k - 1);
    }
  }

  lemma {:induction false} PrefixIsLess(a: string, b: string)
    requires a <= b && a != b
    ensures StrLess(a, b)
  {
    if a != [] {
      assert a == [a[0]] + a[1..] && b == [b[0]] + b[1..];
      PrefixIsLess(a[1..], b[1..]);
    }
  }

  lemma {:induction false} LessDiffers(a: string, b: string) returns (k: nat)
    requires StrLess(a, b)
    ensures (a <= b && a != b) || DiffersAt(a, b, k)
  {
    k := 0;
    if a != [] && a[0] == b[0] {
      k := LessDiffers(a[1..], b[1..]);
      assert a == [a[0]] + a[1..] && b == [b[0]] + b[1..];
      k := k + 1;
      if DiffersAt(a[1..], b[1..], k - 1) {
        assert a[..k] == [a[0]] + a[1..][..k - 1] && b[..k] == [b[0]] + b[1..][..k - 1];
      }
    }
  }

  /** The order of dictionaries: the first difference decides, and a prefix comes before what it starts. */
  lemma {:induction false} StrLessIff(a: string, b: string)
    ensures StrLess(a, b) <==> (a <= b && a != b) || exists k :: DiffersAt(a, b, k)
  {
    if StrLess(a, b) {
      var k := LessDiffers(a, b);
    }
    if a <= b && a != b {
      PrefixIsLess(a, b);
    }
    if k :| DiffersAt(a, b, k) {
      DifferenceDecides(a, b, k);
    }
  }

  // ---------- decimal numbers ----------

  function Digit(d: nat): char
    requires d < 10
  {
    ('0' as int + d) as char
  }

  function Digits(n: nat): string {
    if n < 10 then [Digit(n)] else Digits(n / 10) + [Digit(n % 10)]
  }

  /** strconv.Itoa. */
  function Itoa(n: int): string {
    if n < 0 then "-" + Digits(-n) else Digits(n)
  }

  function DigitsValue(s: string): nat {
    if s == [] then 0
    else 10 * DigitsValue(s[..|s| - 1]) + if '0' <= s[|s| - 1] <= '9' then s[|s| - 1] as int - '0' as int else 0
  }

  predicate AllDigits(s: string) {
    forall i :: 0 <= i < |s| ==> '0' <= s[i] <= '9'
  }

  lemma {:induction false} DigitsInverse(n: nat)
    ensures |Digits(n)| > 0 && AllDigits(Digits(n)) && DigitsValue(Digits(n)) == n
  {
    if n >= 10 {
      DigitsInverse(n / 10);
      var s := Digits(n / 10);
      assert (s + [Digit(n % 10)])[..|s|] == s;
    } else {
      assert [Digit(n)][..0] == [];
    }
  }

  lemma {:induction false} DigitsInjective(a: nat, b: nat)
    requires Digits(a) == Digits(b)
    ensures a == b
  {
    DigitsInverse(a);
    DigitsInverse(b);
  }

  /** Decimal text is a non-empty run of digits, perhaps after a minus sign; so it holds no colon. */
  lemma {:induction false} ItoaCharacters(n: int)
    ensures Itoa(n) != "" && (Itoa(n)[0] == '-' <==> n < 0)
    ensures forall i :: 0 <= i < |Itoa(n)| ==> Itoa(n)[i] != ':'
  {
    var digits := Digits(if n < 0 then -n else n);
    DigitsInverse(if n < 0 then -n else n);
    assert forall i :: 0 <= i < |digits| ==> digits[i] != ':' && digits[i] != '-';
  }

  /** Decimal text determines the number. */
  lemma {:induction false} ItoaInjective(a: int, b: int)
    requires Itoa(a) == Itoa(b)
    ensures a == b
  {
    ItoaCharacters(a);
    ItoaCharacters(b);
    if a < 0 {
      assert Itoa(a)[1..] == Digits(-a) && Itoa(b)[1..] == Digits(-b);
      DigitsInjective(-a, -b);
    } else {
      DigitsInjective(a, b);
    }
  }

  lemma DecimalExample()
    ensures Itoa(-120) == "-120" && Itoa(65535) == "65535" && Itoa(0) == "0"
  {
    assert Digits(1) == "1" && Digits(12) == "12" && Digits(120) == "120";
    assert Digits(6) == "6" && Digits(65) == "65" && Digits(655) == "655" && Digits(6553) == "6553";
  }
}
