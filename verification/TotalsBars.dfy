/** The bar under a test run, whose parts show how many test cases failed, failed as expected, and passed. */
module TotalsBars {

  const CONSOLE_WIDTH: nat := 80

  function MakeRatio(number: nat, total: nat): nat {
    var ratio := if total > 0 then CONSOLE_WIDTH * number / total else 0;
    if ratio == 0 && number > 0 then 1 else ratio
  }

  datatype Bar = Bar(failed: nat, failedButOk: nat, passed: nat) {
    function Length(): nat {
      failed + failedButOk + passed
    }
  }

  /** A part is shown if and only if there is something to show. */
  predicate Shows(bar: Bar, failed: nat, failedButOk: nat, passed: nat) {
    (bar.failed > 0 <==> failed > 0) && (bar.failedButOk > 0 <==> failedButOk > 0) && (bar.passed > 0 <==> passed > 0)
  }

  predicate Within(a: nat, b: nat, distance: nat) {
    a <= b + distance && b <= a + distance
  }

  function Ratios(failed: nat, failedButOk: nat, passed: nat): Bar {
    var total := failed + failedButOk + passed;
    Bar(MakeRatio(failed, total), MakeRatio(failedButOk, total), MakeRatio(passed, total))
  }

  lemma {:induction false} DivBounds(number: nat, total: nat)
    requires total > 0
    ensures var q := CONSOLE_WIDTH * number / total;
            total * q <= CONSOLE_WIDTH * number < total * q + total
  {
  }

  lemma {:induction false} Cancel(total: nat, a: int, b: int)
    requires total > 0 && total * a < total * b
    ensures a < b
  {
  }

  /** Rounding each part down loses less than three columns in all. */
  lemma {:induction false} QuotientSum(a: nat, b: nat, c: nat)
    requires a + b + c > 0
    ensures var total := a + b + c;
            var sum := CONSOLE_WIDTH * a / total + CONSOLE_WIDTH * b / total + CONSOLE_WIDTH * c / total;
            CONSOLE_WIDTH - 2 <= sum <= CONSOLE_WIDTH
  {
    var total := a + b + c;
    var x, y, z := CONSOLE_WIDTH * a / total, CONSOLE_WIDTH * b / total, CONSOLE_WIDTH * c / total;
    DivBounds(a, total);
    DivBounds(b, total);
    DivBounds(c, total);
    assert total * (x + y + z) == total * x + total * y + total * z;
    assert total * (x + y + z + 3) == total * (x + y + z) + 3 * total;
    assert total * (CONSOLE_WIDTH + 1) == total * CONSOLE_WIDTH + total;
    Cancel(total, x + y + z, CONSOLE_WIDTH + 1);
    Cancel(total, CONSOLE_WIDTH, x + y + z + 3);
  }

  lemma {:induction false} RatiosStart(failed: nat, failedButOk: nat, passed: nat)
    requires failed + failedButOk + passed > 0
    ensures var bar := Ratios(failed, failedButOk, passed);
            CONSOLE_WIDTH - 2 <= bar.Length() <= CONSOLE_WIDTH + 2 && Shows(bar, failed, failedButOk, passed)
  {
    QuotientSum(failed, failedButOk, passed);
    var total := failed + failedButOk + passed;
    NothingIsNothing(failed, total);
    NothingIsNothing(failedButOk, total);
    NothingIsNothing(passed, total);
  }

  lemma {:induction false} NothingIsNothing(number: nat, total: nat)
    requires total > 0
    ensures MakeRatio(number, total) > 0 <==> number > 0
    ensures var q := CONSOLE_WIDTH * number / total; q <= MakeRatio(number, total) <= q + 1
    ensures MakeRatio(number, total) == CONSOLE_WIDTH * number / total || MakeRatio(number, total) == 1
  {
  }

  /** Makes the longest part longer or shorter. */
  function Stretch(bar: Bar, change: int): (r: Bar)
    requires change >= 0 || bar.Length() > 0
    requires -1 <= change <= 1
    ensures r.Length() == bar.Length() + change
    ensures r.failed != bar.failed ==> bar.failed >= bar.failedButOk && bar.failed >= bar.passed
    ensures r.failedButOk != bar.failedButOk ==> bar.failedButOk >= bar.failed && bar.failedButOk >= bar.passed
    ensures r.passed != bar.passed ==> bar.passed >= bar.failed && bar.passed >= bar.failedButOk
  {
    if bar.failed > bar.failedButOk && bar.failed > bar.passed then bar.(failed := bar.failed + change)
    else if bar.failedButOk > bar.passed then bar.(failedButOk := bar.failedButOk + change)
    else bar.(passed := bar.passed + change)
  }

  predicate Moved(bar: Bar, from: Bar, distance: nat) {
    Within(bar.failed, from.failed, distance) && Within(bar.failedButOk, from.failedButOk, distance)
    && Within(bar.passed, from.passed, distance)
  }

  /** Makes the longest part longer until the bar is long enough, and shorter while it is too long. */
  method Balance(ratios: Bar) returns (bar: Bar)
    requires CONSOLE_WIDTH - 2 <= ratios.Length() <= CONSOLE_WIDTH + 2
    ensures bar.Length() == CONSOLE_WIDTH - 1 && Moved(bar, ratios, 3) && SameParts(bar, ratios)
  {
    bar := ratios;
    while bar.Length() < CONSOLE_WIDTH - 1
      invariant ratios.Length() <= bar.Length() <= CONSOLE_WIDTH + 2 && SameParts(bar, ratios)
      invariant Moved(bar, ratios, bar.Length() - ratios.Length())
      invariant bar == ratios || bar.Length() == CONSOLE_WIDTH - 1
      decreases CONSOLE_WIDTH - bar.Length()
    {
      bar := Stretch(bar, 1);
    }
    ghost var stretched := bar;
    while bar.Length() > CONSOLE_WIDTH - 1
      invariant CONSOLE_WIDTH - 1 <= bar.Length() <= stretched.Length() && SameParts(bar, ratios)
      invariant Moved(bar, stretched, stretched.Length() - bar.Length())
      decreases bar.Length()
    {
      bar := Stretch(bar, -1);
    }
  }

  predicate SameParts(bar: Bar, from: Bar) {
    Shows(bar, from.failed, from.failedButOk, from.passed)
  }

  lemma {:induction false} MovedShows(from: Bar, bar: Bar, failed: nat, failedButOk: nat, passed: nat)
    requires SameParts(bar, from) && Shows(from, failed, failedButOk, passed)
    ensures Shows(bar, failed, failedButOk, passed)
  {
  }

  datatype Colour = Error | ResultExpectedFailure | ResultSuccess | Success | Warning

  datatype Part = Part(colour: Colour, text: string)

  function Line(n: nat): (r: string)
    ensures |r| == n && forall i :: 0 <= i < n ==> r[i] == '='
  {
    if n == 0 then "" else "=" + Line(n - 1)
  }

  /** A part is at most three columns off its share of 80 columns, which counts as one column at least. */
  predicate IsClose(part: nat, number: nat, total: nat) {
    total > 0 ==> var share := 80 * number / total; share <= part + 3 && part <= 3 + if share == 0 then 1 else share
  }

  lemma {:induction false} MovedIsClose(part: nat, number: nat, total: nat)
    requires total > 0 && Within(part, MakeRatio(number, total), 3)
    ensures IsClose(part, number, total)
  {
  }

  /** The bar fills the console but for one column; a part is left out only if its count is zero, and is at most
      three columns off its share. */
  method PrintTotalsDivider(failed: nat, failedButOk: nat, passed: nat) returns (bar: Bar, parts: seq<Part>)
    ensures failed + failedButOk + passed > 0 ==>
              var total := failed + failedButOk + passed;
              && (bar.failed > 0 <==> failed > 0) && IsClose(bar.failed, failed, total)
              && (bar.failedButOk > 0 <==> failedButOk > 0) && IsClose(bar.failedButOk, failedButOk, total)
              && (bar.passed > 0 <==> passed > 0) && IsClose(bar.passed, passed, total)
              && |parts| == 3 && parts[0] == Part(Error, Line(bar.failed))
              && parts[1] == Part(ResultExpectedFailure, Line(bar.failedButOk))
              && parts[2] == Part(if failed + failedButOk == 0 then ResultSuccess else Success, Line(bar.passed))
    ensures failed + failedButOk + passed == 0 ==> bar.failed == bar.failedButOk == 0 && |parts| == 1 && parts[0].colour == Warning
    ensures bar.Length() == 79
    ensures Texts(parts) == Line(79)
  {
    if failed + failedButOk + passed > 0 {
      var ratios := Ratios(failed, failedButOk, passed);
      RatiosStart(failed, failedButOk, passed);
      bar := Balance(ratios);
      MovedShows(ratios, bar, failed, failedButOk, passed);
      MovedIsClose(bar.failed, failed, failed + failedButOk + passed);
      MovedIsClose(bar.failedButOk, failedButOk, failed + failedButOk + passed);
      MovedIsClose(bar.passed, passed, failed + failedButOk + passed);
      parts := [Part(Error, Line(bar.failed)), Part(ResultExpectedFailure, Line(bar.failedButOk)),
                Part(if failed == 0 && failedButOk == 0 then ResultSuccess else Success, Line(bar.passed))];
      hide Line, Texts, Ratios, Moved, IsClose;
      LineSum(bar.failed, bar.failedButOk);
      LineSum(bar.failed + bar.failedButOk, bar.passed);
      ThreeTexts(parts);
    } else {
      bar := Bar(0, 0, CONSOLE_WIDTH - 1);
      parts := [Part(Warning, Line(CONSOLE_WIDTH - 1))];
      assert parts[..0] == [];
    }
  }

  function Texts(parts: seq<Part>): string {
    if parts == [] then "" else Texts(parts[..|parts| - 1]) + parts[|parts| - 1].text
  }

  lemma {:induction false} ThreeTexts(parts: seq<Part>)
    requires |parts| == 3
    ensures Texts(parts) == parts[0].text + parts[1].text + parts[2].text
  {
    assert parts[..1][..0] == [] && Texts(parts[..1]) == "" + parts[0].text == parts[0].text;
    assert parts[..2][..1] == parts[..1] && Texts(parts[..2]) == parts[0].text + parts[1].text;
  }

  lemma {:induction false} LineSum(m: nat, n: nat)
    ensures Line(m) + Line(n) == Line(m + n)
  {
    if m > 0 {
      LineSum(m - 1, n);
      assert ("=" + Line(m - 1)) + Line(n) == "=" + (Line(m - 1) + Line(n));
    } else {
      assert "" + Line(n) == Line(n);
    }
  }
}
