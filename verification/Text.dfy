/** The string routines of Go's standard library that the CPU-list code leans on,
    over sequences of code points. */
module Text {
  import opened Wrappers

  const MAX_INT: int := 0x7FFF_FFFF_FFFF_FFFF
  const MIN_INT: int := -0x8000_0000_0000_0000

  // ---------- white space ----------

  /** unicode.IsSpace */
  predicate IsSpace(c: char) {
    var n := c as int;
    9 <= n <= 13 || n == 0x20 || n == 0x85 || n == 0xA0 || n == 0x1680 || 0x2000 <= n <= 0x200A
    || n == 0x2028 || n == 0x2029 || n == 0x202F || n == 0x205F || n == 0x3000
  }

  function TrimLeft(s: string): string {
    if s != "" && IsSpace(s[0]) then TrimLeft(s[1..]) else s
  }

  function TrimRight(s: string): string {
    if s != "" && IsSpace(s[|s| - 1]) then TrimRight(s[..|s| - 1]) else s
  }

  /** strings.TrimSpace */
  function TrimSpace(s: string): string {
    TrimRight(TrimLeft(s))
  }

  /** The code points with the Unicode property White_Space. */
  const WHITE_SPACE: set<int> := {
    0x9, 0xA, 0xB, 0xC, 0xD, 0x20, 0x85, 0xA0, 0x1680,
    0x2000, 0x2001, 0x2002, 0x2003, 0x2004, 0x2005, 0x2006, 0x2007, 0x2008, 0x2009, 0x200A,
    0x2028, 0x2029, 0x202F, 0x205F, 0x3000
  }

  lemma SpaceIff(c: char)
    ensures IsSpace(c) <==> c as int in WHITE_SPACE
  {
  }

  predicate Blanks(s: string) {
    forall i | 0 <= i < |s| :: s[i] as int in WHITE_SPACE
  }

  /** A text that begins and ends with something else. */
  predicate Trimmed(s: string) {
    s != "" ==> s[0] as int !in WHITE_SPACE && s[|s| - 1] as int !in WHITE_SPACE
  }

  lemma {:induction false} TrimLeftIs(pre: string, rest: string)
    requires Blanks(pre) && (rest != "" ==> rest[0] as int !in WHITE_SPACE)
    ensures TrimLeft(pre + rest) == rest
  {
    if pre == "" {
      assert pre + rest == rest;
      if rest != "" { SpaceIff(rest[0]); }
    } else {
      SpaceIff(pre[0]);
      assert (pre + rest)[1..] == pre[1..] + rest;
      TrimLeftIs(pre[1..], rest);
    }
  }

  lemma {:induction false} TrimRightIs(rest: string, post: string)
    requires Blanks(post) && (rest != "" ==> rest[|rest| - 1] as int !in WHITE_SPACE)
    ensures TrimRight(rest + post) == rest
  {
    if post == "" {
      assert rest + post == rest;
      if rest != "" { SpaceIff(rest[|rest| - 1]); }
    } else {
      var n := |post| - 1;
      SpaceIff(post[n]);
      assert (rest + post)[..|rest + post| - 1] == rest + post[..n];
      TrimRightIs(rest, post[..n]);
    }
  }

  /** Trimming takes the white space at both ends off and nothing else. */
  lemma TrimIs(pre: string, core: string, post: string)
    requires Blanks(pre) && Blanks(post) && Trimmed(core)
    ensures TrimSpace(pre + core + post) == core
  {
    if core == "" {
      assert pre + core + post == (pre + post) + "";
      TrimLeftIs(pre + post, "");
    } else {
      assert pre + core + post == pre + (core + post);
      TrimLeftIs(pre, core + post);
      TrimRightIs(core, post);
    }
  }

  lemma {:induction false} TrimLeftSplits(s: string) returns (pre: string)
    ensures Blanks(pre) && s == pre + TrimLeft(s)
    ensures TrimLeft(s) != "" ==> TrimLeft(s)[0] as int !in WHITE_SPACE
  {
    if s != "" { SpaceIff(s[0]); }
    if s != "" && IsSpace(s[0]) {
      var rest := TrimLeftSplits(s[1..]);
      pre := [s[0]] + rest;
      assert s == [s[0]] + s[1..];
    } else {
      pre := "";
    }
  }

  lemma {:induction false} TrimRightSplits(s: string) returns (post: string)
    ensures Blanks(post) && s == TrimRight(s) + post
    ensures TrimRight(s) != "" ==> TrimRight(s)[|TrimRight(s)| - 1] as int !in WHITE_SPACE
  {
    if s != "" { SpaceIff(s[|s| - 1]); }
    if s != "" && IsSpace(s[|s| - 1]) {
      var rest := TrimRightSplits(s[..|s| - 1]);
      post := rest + [s[|s| - 1]];
      assert s == s[..|s| - 1] + [s[|s| - 1]];
    } else {
      post := "";
    }
  }

  /** Every text is white space, its trimmed text and white space. */
  lemma TrimSplits(s: string) returns (pre: string, post: string)
    ensures Blanks(pre) && Blanks(post) && s == pre + TrimSpace(s) + post && Trimmed(TrimSpace(s))
  {
    pre := TrimLeftSplits(s);
    post := TrimRightSplits(TrimLeft(s));
    var t := TrimSpace(s);
    assert s == pre + (t + post) == pre + t + post;
    if t != "" {
      assert TrimLeft(s)[0] == t[0];
    }
  }

  predicate Solid(s: string) {
    forall i | 0 <= i < |s| :: !IsSpace(s[i])
  }

  lemma TrimSolid(s: string)
    requires Solid(s)
    ensures TrimSpace(s) == s
  {
  }

  lemma {:induction false} TrimKeepsOut(s: string, c: char)
    requires c !in s
    ensures c !in TrimSpace(s)
  {
    TrimLeftKeepsOut(s, c);
    TrimRightKeepsOut(TrimLeft(s), c);
  }

  lemma TrimLeftKeepsOut(s: string, c: char)
    requires c !in s
    ensures c !in TrimLeft(s)
  {
  }

  lemma TrimRightKeepsOut(s: string, c: char)
    requires c !in s
    ensures c !in TrimRight(s)
  {
  }

  lemma TrimShortens(s: string)
    ensures |TrimSpace(s)| <= |s|
  {
    var pre, post := TrimSplits(s);
  }

  // ---------- splitting and joining ----------

  /** strings.Split with a one-character separator. */
  function Split(s: string, sep: char): (parts: seq<string>)
    ensures |parts| >= 1
    ensures forall p | p in parts :: sep !in p
    ensures |parts| == 1 <==> sep !in s
  {
    if s == "" then [""]
    else
      var rest := Split(s[1..], sep);
      if s[0] == sep then [""] + rest
      else
        assert forall p | p in rest[1..] :: p in rest;
        [[s[0]] + rest[0]] + rest[1..]
  }

  /** strings.Join with a one-character separator. */
  function Join(parts: seq<string>, sep: char): string {
    if |parts| == 0 then ""
    else if |parts| == 1 then parts[0]
    else parts[0] + [sep] + Join(parts[1..], sep)
  }

  lemma {:induction false} SplitShortens(s: string, sep: char)
    ensures forall p | p in Split(s, sep) :: if sep in s then |p| < |s| else |p| <= |s|
  {
    if s != "" {
      SplitShortens(s[1..], sep);
      var rest := Split(s[1..], sep);
      assert s == [s[0]] + s[1..];
      forall p | p in Split(s, sep)
        ensures if sep in s then |p| < |s| else |p| <= |s|
      {
        if s[0] != sep {
          assert p == [s[0]] + rest[0] || p in rest;
        }
      }
    }
  }

  lemma {:induction false} SplitAfter(p: string, sep: char, rest: string)
    requires sep !in p
    ensures Split(p + [sep] + rest, sep) == [p] + Split(rest, sep)
  {
    var s := p + [sep] + rest;
    if p == "" {
      assert s[1..] == rest;
    } else {
      assert s[1..] == p[1..] + [sep] + rest;
      SplitAfter(p[1..], sep, rest);
      assert [p[0]] + p[1..] == p;
    }
  }

  lemma {:induction false} SplitWhole(p: string, sep: char)
    requires sep !in p
    ensures Split(p, sep) == [p]
  {
    if p != "" {
      SplitWhole(p[1..], sep);
      assert [p[0]] + p[1..] == p;
    }
  }

  /** Splitting undoes joining. */
  lemma {:induction false} SplitJoin(parts: seq<string>, sep: char)
    requires |parts| >= 1
    requires forall p | p in parts :: sep !in p
    ensures Split(Join(parts, sep), sep) == parts
  {
    if |parts| == 1 {
      SplitWhole(parts[0], sep);
      assert parts == [parts[0]];
    } else {
      SplitAfter(parts[0], sep, Join(parts[1..], sep));
      SplitJoin(parts[1..], sep);
    }
  }

  lemma {:induction false} JoinSnoc(parts: seq<string>, last: string, sep: char)
    requires |parts| >= 1
    ensures Join(parts + [last], sep) == Join(parts, sep) + [sep] + last
  {
    assert (parts + [last])[1..] == parts[1..] + [last];
    if |parts| > 1 {
      JoinSnoc(parts[1..], last, sep);
    }
  }

  // ---------- decimal numbers ----------

  predicate IsDigit(c: char) {
    '0' <= c <= '9'
  }

  predicate AllDigits(s: string) {
    forall i | 0 <= i < |s| :: IsDigit(s[i])
  }

  function DigitChar(d: nat): (c: char)
    requires d < 10
    ensures IsDigit(c)
  {
    '0' + d as char
  }

  function DigitsValue(s: string): nat
    requires AllDigits(s)
  {
    if s == "" then 0
    else DigitsValue(s[..|s| - 1]) * 10 + (s[|s| - 1] as int - '0' as int)
  }

  function NatText(n: nat): (s: string)
    ensures s != "" && AllDigits(s)
  {
    if n < 10 then [DigitChar(n)] else NatText(n / 10) + [DigitChar(n % 10)]
  }

  /** strconv.Itoa */
  function Itoa(n: int): string {
    if n < 0 then "-" + NatText(-n) else NatText(n)
  }

  /** strconv.Atoi on a 64-bit host: an optional sign, at least one digit, nothing else, and in range. */
  function Atoi(s: string): Option<int> {
    var signed := s != "" && (s[0] == '-' || s[0] == '+');
    var digits := if signed then s[1..] else s;
    if digits == "" || !AllDigits(digits) then None
    else
      var v: int := DigitsValue(digits);
      var n := if signed && s[0] == '-' then -v else v;
      if MIN_INT <= n <= MAX_INT then Some(n) else None
  }

  lemma {:induction false} NatTextValue(n: nat)
    ensures DigitsValue(NatText(n)) == n
  {
    if n >= 10 {
      var s := NatText(n);
      NatTextValue(n / 10);
      assert s[..|s| - 1] == NatText(n / 10);
    } else {
      assert NatText(n)[..0] == "";
    }
  }

  /** Atoi undoes Itoa on every 64-bit integer. */
  lemma {:induction false} AtoiItoa(n: int)
    requires MIN_INT <= n <= MAX_INT
    ensures Atoi(Itoa(n)) == Some(n)
  {
    var m := if n < 0 then -n else n;
    NatTextValue(m);
    AtoiOf(NatText(m), m, n);
  }

  /** An int as its sign and its digits. */
  lemma AtoiOf(digits: string, m: nat, n: int)
    requires digits != "" && AllDigits(digits) && DigitsValue(digits) == m
    requires MIN_INT <= n <= MAX_INT && m == if n < 0 then -n else n
    ensures Atoi(if n < 0 then "-" + digits else digits) == Some(n)
  {
    if n < 0 {
      assert ("-" + digits)[1..] == digits;
    } else {
      assert IsDigit(digits[0]);
    }
  }

  // ---------- what Atoi reads ----------

  lemma NatTextDecimal(a: nat, d: nat)
    requires d < 10
    ensures NatText(d) == ["0123456789"[d]]
    ensures a > 0 ==> NatText(10 * a + d) == NatText(a) + ["0123456789"[d]]
  {
    DigitIs(d);
    assert a > 0 ==> (10 * a + d) / 10 == a && (10 * a + d) % 10 == d;
  }

  lemma DigitIs(d: nat)
    requires d < 10
    ensures DigitChar(d) == "0123456789"[d]
  {
  }

  function Zeros(n: nat): (z: string)
    ensures |z| == n && forall i | 0 <= i < n :: z[i] == '0'
  {
    seq(n, i => '0')
  }

  /** A number as it may be written: a plus sign, zeros, its digits. */
  datatype Numeral = Numeral(plus: bool, zeros: nat, n: nat) {
    function Digits(): string {
      Zeros(zeros) + NatText(n)
    }

    function Text(): string {
      if plus then "+" + Digits() else Digits()
    }
  }

  lemma {:induction false} ZerosValue(zeros: nat, d: string)
    requires AllDigits(d)
    ensures AllDigits(Zeros(zeros) + d) && DigitsValue(Zeros(zeros) + d) == DigitsValue(d)
  {
    var s := Zeros(zeros) + d;
    if d != "" {
      ZerosValue(zeros, d[..|d| - 1]);
      assert s[..|s| - 1] == Zeros(zeros) + d[..|d| - 1];
    } else if zeros > 0 {
      ZerosValue(zeros - 1, d);
      assert s[..|s| - 1] == Zeros(zeros - 1) + d;
    }
  }

  lemma NumeralDigits(num: Numeral)
    ensures num.Digits() != "" && AllDigits(num.Digits()) && DigitsValue(num.Digits()) == num.n
  {
    NatTextValue(num.n);
    ZerosValue(num.zeros, NatText(num.n));
  }

  function DigitOf(c: char): (d: nat)
    requires IsDigit(c)
    ensures d < 10
  {
    c as nat - '0' as nat
  }

  lemma SpellSnoc(z: nat, v: nat, c: char) returns (zeros: nat)
    requires IsDigit(c)
    ensures Zeros(z) + NatText(v) + [c] == Zeros(zeros) + NatText(10 * v + DigitOf(c))
  {
    NatTextDecimal(v, DigitOf(c));
    DigitIs(DigitOf(c));
    if v == 0 {
      zeros := z + 1;
      assert NatText(0) == "0";
      MoreZeros(z, [c]);
    } else {
      zeros := z;
    }
  }

  lemma MoreZeros(z: nat, rest: string)
    ensures Zeros(z) + "0" + rest == Zeros(z + 1) + rest
  {
    assert Zeros(z) + "0" == Zeros(z + 1);
  }

  lemma OneDigit(c: char)
    requires IsDigit(c)
    ensures [c] == NatText(DigitOf(c)) && DigitsValue([c]) == DigitOf(c)
  {
    assert [c][..0] == "";
  }

  /** Every text of digits is zeros and the digits of its value. */
  lemma {:induction false} DigitsSpell(d: string) returns (zeros: nat)
    requires d != "" && AllDigits(d)
    ensures d == Zeros(zeros) + NatText(DigitsValue(d))
  {
    var n := |d| - 1;
    assert d == d[..n] + [d[n]];
    if n == 0 {
      OneDigit(d[0]);
      zeros := 0;
    } else {
      var z := DigitsSpell(d[..n]);
      zeros := SpellSnoc(z, DigitsValue(d[..n]), d[n]);
    }
  }

  /** Atoi reads a text as n >= 0 exactly when it is n in decimal, with or without a plus sign and zeros in front,
      and n is an int. */
  lemma AtoiNat(num: Numeral)
    ensures Atoi(num.Text()) == if num.n <= MAX_INT then Some(num.n) else None
  {
    NumeralDigits(num);
    var d := num.Digits();
    if num.plus {
      assert ("+" + d)[1..] == d;
    } else {
      assert IsDigit(d[0]);
    }
  }

  lemma AtoiSpelled(s: string) returns (num: Numeral)
    requires Atoi(s).Some? && '-' !in s
    ensures num.Text() == s && Atoi(s) == Some(num.n)
  {
    var plus := s[0] == '+';
    var d := if plus then s[1..] else s;
    var zeros := DigitsSpell(d);
    num := Numeral(plus, zeros, DigitsValue(d));
    assert plus ==> s == "+" + s[1..];
  }

  /** A text without a minus sign never reads as a negative number. */
  lemma AtoiUnsigned(s: string)
    requires '-' !in s
    ensures Atoi(s).Some? ==> Atoi(s).value >= 0
  {
  }

  lemma DigitsAreSolid(s: string)
    requires AllDigits(s)
    ensures Solid(s) && ',' !in s && '-' !in s
  {
  }
}
