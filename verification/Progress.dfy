/** The progress meter of a download. */
module Progress {
  import opened Decimal

  /** What is printed at an even percentage. */
  function Mark(percent: nat): string {
    if percent % 10 == 0 then Format(percent) + "%" else "."
  }

  /** The first `n` marks: at 0, 2, 4, ... percent. */
  function Marks(n: nat): string { if n == 0 then "" else Marks(n - 1) + Mark(2 * (n - 1)) }

  function Percentage(total: nat, expected: nat): nat
    requires expected > 0
  {
    total * 100 / expected
  }

  /** What has been printed by the time `total` bytes have been received. */
  function Printed(total: nat, expected: nat): string
    requires expected > 0
  {
    if total == 0 then "" else Marks(Percentage(total, expected) / 2 + 1)
  }

  lemma ProductGrows(x: nat, y: nat, d: nat)
    ensures x <= y ==> x * d <= y * d
  {
  }

  lemma QuotientGrows(a: nat, b: nat, d: nat)
    requires d > 0 && a <= b
    ensures a / d <= b / d
  {
    var p, q := a / d, b / d;
    assert a == p * d + a % d && b == q * d + b % d;
    ProductGrows(q + 1, p, d);
  }

  lemma PercentageGrows(total: nat, n: nat, expected: nat)
    requires expected > 0
    ensures Percentage(total, expected) <= Percentage(total + n, expected)
  {
    QuotientGrows(total * 100, (total + n) * 100, expected);
  }

  // ----- in 64 bits

  /** The 64-bit integer that arithmetic ends up with in the place of `x`. */
  function Wrap(x: int): (r: int)
    ensures -MAX_INT - 1 <= r <= MAX_INT
    ensures -MAX_INT - 1 <= x <= MAX_INT ==> r == x
  {
    (x + MAX_INT + 1) % (2 * MAX_INT + 2) - MAX_INT - 1
  }

  lemma WrapByMultiple(x: int, k: int)
    ensures Wrap(x + k * (2 * MAX_INT + 2)) == Wrap(x)
  {
  }

  lemma WrapsAreMultiples(x: int) returns (k: int)
    ensures x == Wrap(x) + k * (2 * MAX_INT + 2)
  {
    k := (x + MAX_INT + 1) / (2 * MAX_INT + 2);
  }

  /** It makes no difference when the wrapping is done. */
  lemma WrapLate(x: int, n: int)
    ensures Wrap(Wrap(x) + n) == Wrap(x + n)
    ensures Wrap(Wrap(x) * 100) == Wrap(x * 100)
  {
    var k := WrapsAreMultiples(x);
    WrapByMultiple(Wrap(x) + n, k);
    WrapByMultiple(Wrap(x) * 100, k * 100);
    assert x * 100 == Wrap(x) * 100 + (k * 100) * (2 * MAX_INT + 2);
  }

  /** Go's division, which rounds towards zero. */
  function Quotient(a: int, d: nat): int
    requires d > 0
  {
    if a >= 0 then a / d else -(-a / d)
  }

  /** It is the same for both signs, and small numbers give zero. */
  lemma QuotientRoundsToZero(a: int, d: nat)
    requires d > 0
    ensures Quotient(-a, d) == -Quotient(a, d)
    ensures -a < d && a < d ==> Quotient(a, d) == 0
  {
  }

  /** The percentage that Read computes for `total` bytes. */
  function Computed(total: nat, expected: nat): int
    requires expected > 0
  {
    Quotient(Wrap(total * 100), expected)
  }

  /** How many marks are due at that percentage. */
  function Reach(total: nat, expected: nat): nat
    requires expected > 0
  {
    if Computed(total, expected) < 0 then 0 else Computed(total, expected) / 2 + 1
  }

  lemma WrappedHundredfold(total: nat)
    ensures Wrap(total * 100) <= MAX_INT - 3
  {
    var k := WrapsAreMultiples(total * 100);
    assert Wrap(total * 100) == 4 * (25 * total - k * ((MAX_INT + 1) / 2));
  }

  lemma QuotientIsSmaller(a: nat, d: nat)
    requires d > 0
    ensures a / d <= a
  {
    var q := a / d;
    assert a == q * d + a % d;
    ProductGrows(1, d, q);
  }

  /** The next percentage is a 64-bit integer too. */
  lemma ReachFits(total: nat, expected: nat)
    requires expected > 0
    ensures 2 * Reach(total, expected) <= MAX_INT - 1
  {
    WrappedHundredfold(total);
    var a := Wrap(total * 100);
    if a >= 0 { QuotientIsSmaller(a, expected); }
  }

  function Max(a: nat, b: nat): nat { if a < b then b else a }

  lemma NextIsHigher(before: nat, after: nat, percentage: int)
    requires before <= after && percentage < 2 * after
    requires after == before || 2 * after <= percentage + 2
    ensures after == Max(before, if percentage < 0 then 0 else percentage / 2 + 1)
  {
  }

  function Sum(chunks: seq<nat>): nat {
    if chunks == [] then 0 else Sum(chunks[..|chunks| - 1]) + chunks[|chunks| - 1]
  }

  /** How many marks have been printed after reads of these sizes. */
  function After(chunks: seq<nat>, expected: nat): nat
    requires expected > 0
  {
    if chunks == [] then 0
    else
      var before := After(chunks[..|chunks| - 1], expected);
      if chunks[|chunks| - 1] == 0 then before else Max(before, Reach(Sum(chunks), expected))
  }

  /** As Read does it, from the bytes counted so far. */
  function ComputedFrom(bytes: int, expected: nat): int
    requires expected > 0
  {
    Quotient(Wrap(bytes * 100), expected)
  }

  lemma SumOneMore(chunks: seq<nat>, n: nat)
    ensures Sum(chunks + [n]) == Sum(chunks) + n
  {
    assert (chunks + [n])[..|chunks|] == chunks;
  }

  lemma AfterNothing(chunks: seq<nat>, expected: nat)
    requires expected > 0
    ensures After(chunks + [0], expected) == After(chunks, expected)
  {
    assert (chunks + [0])[..|chunks|] == chunks;
  }

  lemma AfterSome(chunks: seq<nat>, n: nat, bytes: int, expected: nat)
    requires expected > 0 && n > 0 && bytes == Wrap(Sum(chunks))
    ensures Wrap(bytes + n) == Wrap(Sum(chunks) + n)
    ensures var p := ComputedFrom(Wrap(bytes + n), expected); p >= 0 ==> 2 * (p / 2 + 1) <= MAX_INT - 1
    ensures var p := ComputedFrom(Wrap(bytes + n), expected);
            After(chunks + [n], expected) == Max(After(chunks, expected), if p < 0 then 0 else p / 2 + 1)
  {
    assert (chunks + [n])[..|chunks|] == chunks;
    WrapLate(Sum(chunks), n);
    WrapLate(Sum(chunks) + n, 0);
    ReachFits(Sum(chunks) + n, expected);
  }

  class ReaderWithProgress {
    var out: string
    var bytesTransferred: int
    const expectedLength: nat
    var nextPercentToPrint: nat

    ghost var chunks: seq<nat>     // the sizes of all reads so far
    ghost var marks: nat           // how many marks have been printed

    ghost predicate Valid()
      reads this
    {
      && expectedLength > 0
      && bytesTransferred == Wrap(Sum(chunks))
      && marks == After(chunks, expectedLength) && nextPercentToPrint == 2 * marks <= MAX_INT - 1
      && out == Marks(marks)
    }

    constructor (expectedLength: nat)
      requires expectedLength > 0
      ensures Valid() && chunks == [] && this.expectedLength == expectedLength
    {
      this.expectedLength := expectedLength;
      out, bytesTransferred, nextPercentToPrint, chunks, marks := "", 0, 0, [], 0;
    }

    /** Read, once the underlying reader has delivered `n` bytes. */
    method Read(n: nat)
      requires Valid()
      modifies this
      ensures Valid() && chunks == old(chunks) + [n]
    {
      SumOneMore(chunks, n);
      AfterNothing(chunks, expectedLength);
      if n > 0 {
        AfterSome(chunks, n, bytesTransferred, expectedLength);
        bytesTransferred := Wrap(bytesTransferred + n);
        var percentage := ComputedFrom(bytesTransferred, expectedLength);
        PrintMarks(percentage);
      }
      chunks := chunks + [n];
    }

    /** The loop of Read: every mark up to the percentage that has not been printed yet, once and in
        order. */
    method PrintMarks(percentage: int)
      requires nextPercentToPrint == 2 * marks <= MAX_INT - 1 && out == Marks(marks)
      requires percentage >= 0 ==> 2 * (percentage / 2 + 1) <= MAX_INT - 1
      modifies `out, `nextPercentToPrint, `marks
      ensures nextPercentToPrint == 2 * marks <= MAX_INT - 1 && out == Marks(marks)
      ensures marks == Max(old(marks), if percentage < 0 then 0 else percentage / 2 + 1)
    {
      while percentage >= nextPercentToPrint
        invariant old(marks) <= marks && nextPercentToPrint == 2 * marks
        invariant marks == old(marks) || nextPercentToPrint <= percentage + 2
        invariant out == Marks(marks) && nextPercentToPrint <= MAX_INT - 1   // no overflow
        decreases percentage + 2 - nextPercentToPrint
      {
        PrintMark();
        nextPercentToPrint := nextPercentToPrint + 2;
        marks := marks + 1;
      }
      NextIsHigher(old(marks), marks, percentage);
    }

    /** Its body, up to the increment. */
    method PrintMark()
      requires nextPercentToPrint == 2 * marks && out == Marks(marks)
      modifies `out
      ensures out == Marks(marks + 1)
    {
      var mark := "";
      if nextPercentToPrint % 10 == 0 {
        mark := Format(nextPercentToPrint) + "%";
      } else if nextPercentToPrint % 2 == 0 {
        mark := ".";
      }
      assert mark == Mark(nextPercentToPrint);
      NextMark(marks, mark);
      out := out + mark;
    }

    /** Reads of these sizes, one after another. */
    method ReadAll(sizes: seq<nat>)
      requires Valid()
      modifies this
      ensures Valid() && chunks == old(chunks) + sizes
    {
      for i := 0 to |sizes|
        invariant Valid() && chunks == old(chunks) + sizes[..i]
      {
        Read(sizes[i]);
      }
    }
  }

  // ----- whether the sizes of the reads show

  /** Nothing overflows. */
  predicate Fits(total: nat) { total * 100 <= MAX_INT }

  /** No smaller total reaches further. */
  ghost predicate IsHighest(total: nat, expected: nat)
    requires expected > 0
  {
    forall t: nat :: 0 < t <= total ==> Reach(t, expected) <= Reach(total, expected)
  }

  /** Every way to read `total` bytes prints the same. */
  ghost predicate CutsDoNotShow(total: nat, expected: nat)
    requires expected > 0
  {
    forall chunks :: Sum(chunks) == total ==> After(chunks, expected) == After([total], expected)
  }

  /** The last total has been taken into account, and nothing above what the totals reach. */
  lemma {:induction false} AfterIsPeak(chunks: seq<nat>, expected: nat, total: nat)
    requires expected > 0 && Sum(chunks) <= total
    requires IsHighest(total, expected)
    ensures Sum(chunks) > 0 ==> After(chunks, expected) >= Reach(Sum(chunks), expected)
    ensures After(chunks, expected) <= Reach(total, expected) || Sum(chunks) == 0
    ensures Sum(chunks) == 0 ==> After(chunks, expected) == 0
  {
    if chunks != [] {
      AfterIsPeak(chunks[..|chunks| - 1], expected, total);
    }
  }

  lemma AfterOne(t: nat, expected: nat)
    requires expected > 0
    ensures Sum([t]) == t && After([t], expected) == if t == 0 then 0 else Reach(t, expected)
  {
    assert [t][..0] == [];
  }

  lemma AfterTwo(t: nat, u: nat, expected: nat)
    requires expected > 0 && t > 0 && u > 0
    ensures Sum([t, u]) == t + u && After([t, u], expected) == Max(Reach(t, expected), Reach(t + u, expected))
  {
    AfterOne(t, expected);
    assert [t, u][..1] == [t];
  }

  lemma HighestHidesCuts(total: nat, expected: nat)
    requires expected > 0 && IsHighest(total, expected)
    ensures CutsDoNotShow(total, expected)
  {
    AfterOne(total, expected);
    forall chunks | Sum(chunks) == total ensures After(chunks, expected) == After([total], expected) {
      AfterIsPeak(chunks, expected, total);
    }
  }

  lemma HiddenCutsAreHighest(total: nat, expected: nat, t: nat)
    requires expected > 0 && CutsDoNotShow(total, expected) && 0 < t < total
    ensures Reach(t, expected) <= Reach(total, expected)
  {
    AfterOne(total, expected);
    AfterTwo(t, total - t, expected);
    assert After([t, total - t], expected) == After([total], expected);
  }

  /** Every way to read `total` bytes prints the same if and only if no smaller total reaches
      further. */
  lemma CutsShowExactly(total: nat, expected: nat)
    requires expected > 0
    ensures CutsDoNotShow(total, expected) <==> IsHighest(total, expected)
  {
    if IsHighest(total, expected) { HighestHidesCuts(total, expected); }
    if CutsDoNotShow(total, expected) {
      forall t: nat | 0 < t <= total ensures Reach(t, expected) <= Reach(total, expected) {
        if t < total { HiddenCutsAreHighest(total, expected, t); }
      }
    }
  }

  lemma FittingReach(total: nat, expected: nat)
    requires expected > 0 && Fits(total)
    ensures Reach(total, expected) == Percentage(total, expected) / 2 + 1
  {
  }

  lemma FittingReachGrows(t: nat, total: nat, expected: nat)
    requires expected > 0 && t <= total && Fits(total)
    ensures Reach(t, expected) <= Reach(total, expected)
  {
    FittingReach(t, expected);
    FittingReach(total, expected);
    PercentageGrows(t, total - t, expected);
  }

  lemma AfterTotal(chunks: seq<nat>, expected: nat)
    requires expected > 0 && Fits(Sum(chunks))
    ensures After(chunks, expected) == if Sum(chunks) == 0 then 0 else Reach(Sum(chunks), expected)
  {
    var total := Sum(chunks);
    forall t: nat | 0 < t <= total ensures Reach(t, expected) <= Reach(total, expected) {
      FittingReachGrows(t, total, expected);
    }
    AfterIsPeak(chunks, expected, total);
  }

  /** As long as nothing overflows, what is printed is a function of the bytes received so far, and
      not of how the reads were cut. */
  lemma TextOfTotal(chunks: seq<nat>, expected: nat)
    requires expected > 0 && Fits(Sum(chunks))
    ensures Marks(After(chunks, expected)) == Printed(Sum(chunks), expected)
  {
    AfterTotal(chunks, expected);
    if Sum(chunks) > 0 { FittingReach(Sum(chunks), expected); }
  }

  /** Beyond that the cuts can show: the first total that overflows, in one read and in two. */
  lemma OverflowShowsCuts()
    ensures var total := MAX_INT / 100 + 1;
            && !Fits(total) && Sum([total]) == Sum([1, total - 1])
            && After([total], 2) == 0 && After([1, total - 1], 2) == 26
  {
    var total := MAX_INT / 100 + 1;
    AfterOne(total, 2);
    AfterTwo(1, total - 1, 2);
    assert Wrap(total * 100) == total * 100 - (2 * MAX_INT + 2);
    assert Computed(total, 2) < 0;
    assert Computed(1, 2) == 50;
  }

  // ----- the text of a complete download

  /** The text of `k` times ten percent: "0%....10%....20%...." and so on. */
  function Decades(k: nat): string {
    if k == 0 then "" else Decades(k - 1) + (Format(10 * (k - 1)) + "%" + "....")
  }

  lemma Join(a: string, b: string, c: string)
    ensures (a + b) + c == a + (b + c)
  {
  }

  lemma NextMark(n: nat, m: string)
    requires Mark(2 * n) == m
    ensures Marks(n + 1) == Marks(n) + m
  {
  }

  lemma FiveMarks(n: nat, m: string)
    requires Mark(2 * n) == m
    requires Mark(2 * (n + 1)) == Mark(2 * (n + 2)) == Mark(2 * (n + 3)) == Mark(2 * (n + 4)) == "."
    ensures Marks(n + 5) == Marks(n) + (m + "....")
  {
    NextMark(n, m);
    NextMark(n + 1, ".");
    NextMark(n + 2, ".");
    NextMark(n + 3, ".");
    NextMark(n + 4, ".");
    assert Marks(n + 5) == (Marks(n) + m) + "....";
    Join(Marks(n), m, "....");
  }

  lemma DecadeMark(k: nat, i: nat)
    requires i < 5
    ensures Mark(2 * (5 * k + i)) == if i == 0 then Format(10 * k) + "%" else "."
  {
    assert (2 * (5 * k + i)) % 10 == 2 * i;
  }

  lemma {:induction false} MarksAreDecades(k: nat)
    ensures Marks(5 * k) == Decades(k)
  {
    if k > 0 {
      MarksAreDecades(k - 1);
      DecadeMark(k - 1, 0);
      DecadeMark(k - 1, 1);
      DecadeMark(k - 1, 2);
      DecadeMark(k - 1, 3);
      DecadeMark(k - 1, 4);
      FiveMarks(5 * (k - 1), Format(10 * (k - 1)) + "%");
    }
  }

  lemma CompleteMarks(k: nat)
    ensures Marks(5 * k + 1) == Decades(k) + Mark(2 * (5 * k))
  {
    MarksAreDecades(k);
    NextMark(5 * k, Mark(2 * (5 * k)));
  }

  lemma AllIsHundred(expected: nat)
    requires expected > 0
    ensures Percentage(expected, expected) == 100
  {
  }

  lemma QuotientBelow(a: int, d: nat)
    requires d > 0 && a < 100 * d
    ensures Quotient(a, d) < 100
  {
    if a >= 0 {
      var q := a / d;
      assert a == q * d + a % d;
      ProductGrows(100, q, d);
    }
  }

  /** If the expected length overflows, no part of it reaches a hundred percent. */
  lemma OverflowReachesLess(t: nat, expected: nat)
    requires t <= expected && expected > 0 && !Fits(expected)
    ensures Reach(t, expected) <= 50
  {
    var k := WrapsAreMultiples(t * 100);
    assert Wrap(t * 100) <= t * 100;
    assert t == expected ==> Wrap(t * 100) < t * 100;
    QuotientBelow(Wrap(t * 100), expected);
  }

  lemma {:induction false} OverflowStopsShort(chunks: seq<nat>, expected: nat)
    requires expected > 0 && Sum(chunks) <= expected && !Fits(expected)
    ensures After(chunks, expected) <= 50
  {
    if chunks != [] {
      OverflowStopsShort(chunks[..|chunks| - 1], expected);
      OverflowReachesLess(Sum(chunks), expected);
    }
  }

  /** However a complete download was cut, it has printed the 51 marks up to a hundred percent if and
      only if a hundred times its length fits 64 bits. */
  lemma CompletesExactly(chunks: seq<nat>, expected: nat)
    requires expected > 0 && Sum(chunks) == expected
    ensures After(chunks, expected) == 51 <==> Fits(expected)
  {
    if Fits(expected) {
      AfterTotal(chunks, expected);
      FittingReach(expected, expected);
      AllIsHundred(expected);
    } else {
      OverflowStopsShort(chunks, expected);
    }
  }

  lemma {:induction false} MarksGrow(n: nat, m: nat)
    requires n < m
    ensures |Marks(n)| < |Marks(m)|
  {
    if n < m - 1 { MarksGrow(n, m - 1); }
    assert |Mark(2 * (m - 1))| > 0;
  }

  /** Different numbers of marks are different texts. */
  lemma MarksAreInjective(m: nat, n: nat)
    ensures Marks(m) == Marks(n) <==> m == n
  {
    if m < n { MarksGrow(m, n); }
    if n < m { MarksGrow(n, m); }
  }

  // The number is a parameter so that the verifier does not spell the text out.
  lemma FullMarks(ten: nat)
    requires ten == 10
    ensures Marks(5 * ten + 1) == Decades(ten) + (Format(10 * ten) + "%")
  {
    CompleteMarks(ten);
    DecadeMark(ten, 0);
  }

  lemma TextCompletesExactly(chunks: seq<nat>, expected: nat, n: nat, text: string)
    requires expected > 0 && Sum(chunks) == expected && n == 51 && text == Marks(n)
    ensures Marks(After(chunks, expected)) == text <==> Fits(expected)
  {
    CompletesExactly(chunks, expected);
    MarksAreInjective(After(chunks, expected), n);
  }

  /** The text of a complete download is each mark once and in order, "0%....10%....", ending with
      "100%", if and only if a hundred times its length fits 64 bits. */
  lemma CompleteText(chunks: seq<nat>, expected: nat)
    requires expected > 0 && Sum(chunks) == expected
    ensures Marks(After(chunks, expected)) == Decades(10) + (Format(100) + "%") <==> Fits(expected)
  {
    FullMarks(10);
    TextCompletesExactly(chunks, expected, 51, Decades(10) + (Format(100) + "%"));
  }

  /** The smallest length for which it does not: nothing at all is printed for one read. */
  lemma OverflowPrintsNothing()
    ensures var e := MAX_INT / 100 + 1;
            Sum([e]) == e && !Fits(e) && Marks(After([e], e)) == ""
  {
    var e := MAX_INT / 100 + 1;
    AfterOne(e, e);
    assert Wrap(e * 100) == e * 100 - (2 * MAX_INT + 2);
    NegativeQuotient(Wrap(e * 100), e);
  }

  lemma NegativeQuotient(a: int, d: nat)
    requires d > 0 && a + d <= 0
    ensures Quotient(a, d) < 0
  {
  }
}
