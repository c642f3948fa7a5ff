/** How the values of a configuration are read. */
module ConfigValues {

  // ---------- The program ----------

  predicate IsSpace(c: char) {
    c in {' ', '\t', '\n', '\r', '\U{B}', '\U{C}'}
  }

  function TrimLeft(s: string): string {
    if s != "" && IsSpace(s[0]) then TrimLeft(s[1..]) else s
  }

  function TrimRight(s: string): string {
    if s != "" && IsSpace(s[|s| - 1]) then TrimRight(s[..|s| - 1]) else s
  }

  function Trim(s: string): string {
    TrimLeft(TrimRight(s))
  }

  function GetBool(s: string): bool {
    Trim(s) in {"TRUE", "true", "1"}
  }

  predicate AllDigits(s: string) {
    forall i :: 0 <= i < |s| ==> '0' <= s[i] <= '9'
  }

  function Decimal(s: string): nat
    requires AllDigits(s)
  {
    if s == "" then 0 else 10 * Decimal(s[..|s| - 1]) + (s[|s| - 1] - '0') as nat
  }

  /** Anything that is not a number counts as 0. */
  function GetULong(s: string): nat {
    if Trim(s) != "" && AllDigits(Trim(s)) then Decimal(Trim(s)) else 0
  }

  // ---------- What is written ----------

  predicate IsBlank(s: string) {
    forall c :: c in s ==> c in " \t\n\r\U{B}\U{C}"
  }

  function Digit(d: nat): char
    requires d < 10
  {
    "0123456789"[d]
  }

  /** The digits of a number, the last of which counts the ones. */
  function Numeral(n: nat): string {
    (if n < 10 then "" else Numeral(n / 10)) + [Digit(n % 10)]
  }

  function Zeros(k: nat): (r: string)
    ensures |r| == k && forall i :: 0 <= i < k ==> r[i] == '0'
  {
    if k == 0 then "" else Zeros(k - 1) + "0"
  }

  /** The word, with blanks around it. */
  ghost predicate Says(s: string, word: string) {
    exists before, after :: IsBlank(before) && IsBlank(after) && s == before + word + after
  }

  ghost predicate SaysNumber(s: string, n: nat) {
    exists k: nat :: Says(s, Zeros(k) + Numeral(n))
  }

  /** A number that is written is that number, and anything else is 0. */
  ghost predicate IsNumber(s: string, n: nat) {
    if exists m: nat :: SaysNumber(s, m) then SaysNumber(s, n) else n == 0
  }

  ghost predicate IsTrue(s: string) {
    Says(s, "TRUE") || Says(s, "true") || Says(s, "1")
  }

  // ---------- Trimming ----------

  /** A word does not start or end with a blank. */
  predicate IsWord(s: string) {
    s != "" && !IsSpace(s[0]) && !IsSpace(s[|s| - 1])
  }

  lemma {:induction false} TrimLeftOf(before: string, word: string)
    requires IsBlank(before) && (word != "" ==> !IsSpace(word[0]))
    ensures TrimLeft(before + word) == word
  {
    if before == "" {
      assert before + word == word;
    } else {
      assert (before + word)[1..] == before[1..] + word && before[0] in before;
      assert forall c :: c in before[1..] ==> c in before;
      TrimLeftOf(before[1..], word);
    }
  }

  lemma {:induction false} TrimRightOf(word: string, after: string)
    requires IsBlank(after) && (word != "" ==> !IsSpace(word[|word| - 1]))
    ensures TrimRight(word + after) == word
  {
    if after == "" {
      assert word + after == word;
    } else {
      var n := |after| - 1;
      assert (word + after)[..|word| + n] == word + after[..n] && after[n] in after;
      assert forall c :: c in after[..n] ==> c in after;
      TrimRightOf(word, after[..n]);
    }
  }

  lemma {:induction false} TrimOf(before: string, word: string, after: string)
    requires IsBlank(before) && IsBlank(after) && IsWord(word)
    ensures Trim(before + word + after) == word
  {
    TrimRightOf(before + word, after);
    TrimLeftOf(before, word);
  }

  lemma {:induction false} TrimLeftParts(s: string) returns (before: string)
    ensures IsBlank(before) && s == before + TrimLeft(s) && (TrimLeft(s) != "" ==> !IsSpace(TrimLeft(s)[0]))
    decreases s
  {
    if s != "" && IsSpace(s[0]) {
      var rest := TrimLeftParts(s[1..]);
      before := [s[0]] + rest;
    } else {
      before := "";
    }
  }

  lemma {:induction false} TrimRightParts(s: string) returns (after: string)
    ensures IsBlank(after) && s == TrimRight(s) + after
    decreases s
  {
    if s != "" && IsSpace(s[|s| - 1]) {
      var rest := TrimRightParts(s[..|s| - 1]);
      after := rest + [s[|s| - 1]];
    } else {
      after := "";
    }
  }

  lemma {:induction false} TrimParts(s: string)
    ensures Says(s, Trim(s))
  {
    var after := TrimRightParts(s);
    var before := TrimLeftParts(TrimRight(s));
    assert s == before + Trim(s) + after;
  }

  /** Trimming finds the one word that a text says. */
  lemma {:induction false} SaysOnly(s: string, word: string)
    requires IsWord(word)
    ensures Says(s, word) <==> Trim(s) == word
  {
    TrimParts(s);
    if Says(s, word) {
      var before, after :| IsBlank(before) && IsBlank(after) && s == before + word + after;
      TrimOf(before, word, after);
    }
  }

  // ---------- Words and numbers ----------

  lemma {:induction false} DigitIs(d: nat)
    requires d < 10
    ensures '0' <= Digit(d) <= '9' && (Digit(d) - '0') as nat == d
  {
  }

  lemma {:induction false} DecimalMore(s: string, c: char)
    requires AllDigits(s) && '0' <= c <= '9'
    ensures AllDigits(s + [c]) && Decimal(s + [c]) == 10 * Decimal(s) + (c - '0') as nat
  {
    assert (s + [c])[..|s|] == s;
  }

  lemma {:induction false} DecimalZeros(k: nat)
    ensures AllDigits(Zeros(k)) && Decimal(Zeros(k)) == 0
  {
    if k > 0 {
      DecimalZeros(k - 1);
      DecimalMore(Zeros(k - 1), '0');
    }
  }

  lemma {:induction false} DivideByTen(m: nat, d: nat)
    requires d < 10
    ensures (10 * m + d) / 10 == m && (10 * m + d) % 10 == d
  {
  }

  lemma {:induction false} NumeralMore(m: nat, d: nat)
    requires d < 10
    ensures m > 0 ==> Numeral(10 * m + d) == Numeral(m) + [Digit(d)]
    ensures Numeral(d) == [Digit(d)]
  {
    DivideByTen(m, d);
    DivideByTen(0, d);
    hide Digit;
    assert "" + [Digit(d)] == [Digit(d)];
  }

  lemma {:induction false} DecimalOf(k: nat, n: nat)
    ensures AllDigits(Zeros(k) + Numeral(n)) && Decimal(Zeros(k) + Numeral(n)) == n
    decreases n
  {
    hide Numeral, Decimal, Zeros, Digit;
    var m, d := n / 10, n % 10;
    assert n == 10 * m + d;
    DigitIs(d);
    NumeralMore(m, d);
    if m == 0 {
      DecimalZeros(k);
      DecimalMore(Zeros(k), Digit(d));
    } else {
      DecimalOf(k, m);
      DecimalMore(Zeros(k) + Numeral(m), Digit(d));
      Regroup(Zeros(k), Numeral(m), [Digit(d)]);
    }
  }

  lemma {:induction false} Regroup(a: string, b: string, c: string)
    ensures (a + b) + c == a + (b + c)
  {
  }

  lemma {:induction false} OneDigit(d: nat)
    requires d < 10
    ensures [Digit(d)] == Zeros(0) + Numeral(d)
  {
    hide Numeral;
    NumeralMore(0, d);
  }

  lemma {:induction false} OneMoreZero(k: nat, d: nat)
    requires d < 10
    ensures (Zeros(k) + Numeral(0)) + [Digit(d)] == Zeros(k + 1) + Numeral(d)
  {
    hide Numeral;
    NumeralMore(0, 0);
    NumeralMore(0, d);
  }

  /** Digits are the numeral of their value, behind zeros. */
  lemma {:induction false} NumeralOf(s: string) returns (k: nat)
    requires s != "" && AllDigits(s)
    ensures s == Zeros(k) + Numeral(Decimal(s))
    decreases s
  {
    hide Numeral, Decimal, Zeros;
    var n := |s| - 1;
    var d := (s[n] - '0') as nat;
    DigitIs(d);
    assert s == s[..n] + [Digit(d)];
    DecimalMore(s[..n], s[n]);
    var m := Decimal(s[..n]);
    if n == 0 {
      NoDigits();
      OneDigit(d);
      k := 0;
    } else {
      var k0 := NumeralOf(s[..n]);
      NumeralMore(m, d);
      if m == 0 {
        OneMoreZero(k0, d);
        k := k0 + 1;
      } else {
        Regroup(Zeros(k0), Numeral(m), [Digit(d)]);
        k := k0;
      }
    }
  }

  lemma {:induction false} NoDigits()
    ensures Decimal("") == 0
  {
  }

  lemma {:induction false} DigitsAreWord(s: string)
    requires s != "" && AllDigits(s)
    ensures IsWord(s)
  {
  }

  lemma {:induction false} NumeralSaid(s: string, n: nat)
    ensures SaysNumber(s, n) <==> Trim(s) != "" && AllDigits(Trim(s)) && Decimal(Trim(s)) == n
  {
    hide Says, Trim;
    if SaysNumber(s, n) {
      var k: nat :| Says(s, Zeros(k) + Numeral(n));
      DecimalOf(k, n);
      DigitsAreWord(Zeros(k) + Numeral(n));
      SaysOnly(s, Zeros(k) + Numeral(n));
    }
    if Trim(s) != "" && AllDigits(Trim(s)) && Decimal(Trim(s)) == n {
      var k := NumeralOf(Trim(s));
      TrimParts(s);
    }
  }

  /** A value is read as the number that it says, whatever blanks and zeros there are, and as 0 if it says none. */
  lemma {:induction false} NumberIsRead(s: string, n: nat)
    ensures GetULong(s) == n <==> IsNumber(s, n)
  {
    hide SaysNumber, Trim, Decimal;
    forall m: nat
      ensures SaysNumber(s, m) <==> Trim(s) != "" && AllDigits(Trim(s)) && Decimal(Trim(s)) == m
    {
      NumeralSaid(s, m);
    }
    if Trim(s) != "" && AllDigits(Trim(s)) {
      assert SaysNumber(s, Decimal(Trim(s)));
    }
  }

  /** A value is read as true exactly if it is one of three words, with any blanks around it. */
  lemma {:induction false} TrueIsRead(s: string)
    ensures GetBool(s) <==> IsTrue(s)
  {
    hide Says, Trim;
    SaysOnly(s, "TRUE");
    SaysOnly(s, "true");
    SaysOnly(s, "1");
  }
}
