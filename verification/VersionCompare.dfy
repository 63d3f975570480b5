/** Comparison of Docker version strings: the loop over segments, the order that it
    computes, and how release-candidate and edition markers enter it. */
module VersionCompare {
  import opened Text
  import opened Decimal

  const RC := "-rc"
  const CE := "-ce"

  function Ints(segments: seq<string>): (r: seq<int>)
    ensures |r| == |segments|
    ensures forall i :: 0 <= i < |r| ==> r[i] == Atoi(segments[i])
  {
    seq(|segments|, i requires 0 <= i < |segments| => Atoi(segments[i]))
  }

  /** The numbers that compareNumeric looks at. */
  function Numbers(v: string): seq<int> { Ints(Split(Before(v, '-'), '.')) }

  // ----- the order on number sequences

  /** Element `k` of the sequence continued with zeros. */
  function At(a: seq<int>, k: nat): int { if k < |a| then a[k] else 0 }

  predicate SameUpTo(a: seq<int>, b: seq<int>, k: nat) { forall j: nat :: j < k ==> At(a, j) == At(b, j) }

  ghost predicate Same(a: seq<int>, b: seq<int>) { forall j: nat :: At(a, j) == At(b, j) }

  /** Lexicographic order of the zero-continued sequences: `a` is smaller at the first difference. */
  ghost predicate Smaller(a: seq<int>, b: seq<int>) { exists k: nat :: SameUpTo(a, b, k) && At(a, k) < At(b, k) }

  /** compareNumeric */
  method CompareNumeric(v1: string, v2: string) returns (r: int)
    ensures r == -1 <==> Smaller(Numbers(v1), Numbers(v2))
    ensures r == 1 <==> Smaller(Numbers(v2), Numbers(v1))
    ensures r == 0 <==> Same(Numbers(v1), Numbers(v2))
    ensures -1 <= r <= 1
  {
    r := CompareSegments(Split(Before(v1, '-'), '.'), Split(Before(v2, '-'), '.'));
  }

  /** The loop of compareNumeric. */
  method CompareSegments(currTab: seq<string>, otherTab: seq<string>) returns (r: int)
    ensures r == -1 <==> Smaller(Ints(currTab), Ints(otherTab))
    ensures r == 1 <==> Smaller(Ints(otherTab), Ints(currTab))
    ensures r == 0 <==> Same(Ints(currTab), Ints(otherTab))
    ensures -1 <= r <= 1
  {
    ghost var a, b := Ints(currTab), Ints(otherTab);
    var max := if |otherTab| > |currTab| then |otherTab| else |currTab|;
    for i := 0 to max
      invariant SameUpTo(a, b, i)
    {
      var currInt, otherInt := 0, 0;
      if |currTab| > i { currInt := Atoi(currTab[i]); }
      if |otherTab| > i { otherInt := Atoi(otherTab[i]); }
      assert currInt == At(a, i) && otherInt == At(b, i);
      if currInt != otherInt {
        FirstDifferenceDecides(a, b, i);
        return if currInt > otherInt then 1 else -1;
      }
    }
    assert Same(a, b);
    return 0;
  }

  lemma FirstDifferenceDecides(a: seq<int>, b: seq<int>, k: nat)
    requires SameUpTo(a, b, k) && At(a, k) != At(b, k)
    ensures Smaller(a, b) <==> At(a, k) < At(b, k)
    ensures Smaller(b, a) <==> At(b, k) < At(a, k)
    ensures !Same(a, b)
  {
  }

  // ----- versions

  /** What of a version string matters to the order. */
  datatype Key = Key(ce: bool, numbers: seq<int>)

  function KeyOf(v: string): Key {
    var v := ReplaceAll(v, RC, ".");
    if Contains(v, CE) then Key(true, Numbers(ReplaceAll(v, CE, ""))) else Key(false, Numbers(v))
  }

  /** Community editions come after all else; otherwise the numbers decide. */
  ghost predicate Precedes(a: Key, b: Key) { (!a.ce && b.ce) || (a.ce == b.ce && Smaller(a.numbers, b.numbers)) }

  ghost predicate Equivalent(a: Key, b: Key) { a.ce == b.ce && Same(a.numbers, b.numbers) }

  /** compare */
  method Compare(v1: string, v2: string) returns (r: int)
    ensures r == -1 <==> Precedes(KeyOf(v1), KeyOf(v2))
    ensures r == 1 <==> Precedes(KeyOf(v2), KeyOf(v1))
    ensures r == 0 <==> Equivalent(KeyOf(v1), KeyOf(v2))
    ensures -1 <= r <= 1
  {
    var w1, w2 := ReplaceAll(v1, RC, "."), ReplaceAll(v2, RC, ".");
    if Contains(w1, CE) && !Contains(w2, CE) { return 1; }
    if !Contains(w1, CE) && Contains(w2, CE) { return -1; }
    if !Contains(w1, CE) && !Contains(w2, CE) {
      r := CompareNumeric(w1, w2);
      return;
    }
    r := CompareNumeric(ReplaceAll(w1, CE, ""), ReplaceAll(w2, CE, ""));
  }

  // ----- a total preorder

  lemma SmallerIsTransitive(a: seq<int>, b: seq<int>, c: seq<int>)
    requires (Smaller(a, b) && (Smaller(b, c) || Same(b, c))) || (Same(a, b) && Smaller(b, c))
    ensures Smaller(a, c)
  {
    if Smaller(a, b) {
      var k: nat :| SameUpTo(a, b, k) && At(a, k) < At(b, k);
      if Smaller(b, c) {
        var l: nat :| SameUpTo(b, c, l) && At(b, l) < At(c, l);
        var m := if k < l then k else l;
        assert SameUpTo(a, c, m) && At(a, m) < At(c, m);
      } else {
        assert SameUpTo(a, c, k) && At(a, k) < At(c, k);
      }
    } else {
      var l: nat :| SameUpTo(b, c, l) && At(b, l) < At(c, l);
      assert SameUpTo(a, c, l) && At(a, l) < At(c, l);
    }
  }

  lemma {:induction false} Comparable(a: seq<int>, b: seq<int>, k: nat)
    requires SameUpTo(a, b, k)
    ensures Smaller(a, b) || Smaller(b, a) || Same(a, b)
    decreases |a| + |b| - k
  {
    if At(a, k) != At(b, k) {
      FirstDifferenceDecides(a, b, k);
    } else if k < |a| || k < |b| {
      Comparable(a, b, k + 1);
    } else {
      assert Same(a, b);
    }
  }

  lemma NotBothSmaller(a: seq<int>, b: seq<int>)
    requires Smaller(a, b)
    ensures !Smaller(b, a) && !Same(a, b)
  {
    var k: nat :| SameUpTo(a, b, k) && At(a, k) < At(b, k);
    FirstDifferenceDecides(a, b, k);
  }

  /** Any two versions are related in exactly one way, so the result of Compare is determined
      and Compare(a, b) is the opposite of Compare(b, a). */
  lemma ExactlyOne(a: Key, b: Key)
    ensures Precedes(a, b) || Equivalent(a, b) || Precedes(b, a)
    ensures !(Precedes(a, b) && Equivalent(a, b)) && !(Precedes(a, b) && Precedes(b, a))
    ensures Equivalent(a, b) == Equivalent(b, a)
  {
    Comparable(a.numbers, b.numbers, 0);
    if Smaller(a.numbers, b.numbers) { NotBothSmaller(a.numbers, b.numbers); }
    if Smaller(b.numbers, a.numbers) { NotBothSmaller(b.numbers, a.numbers); }
  }

  /** "Not after" is transitive, strictly so if either part is strict; equivalent versions
      can replace each other. */
  lemma NotAfterIsTransitive(a: Key, b: Key, c: Key)
    requires !Precedes(b, a) && !Precedes(c, b)
    ensures !Precedes(c, a)
    ensures Precedes(a, c) <==> Precedes(a, b) || Precedes(b, c)
  {
    ExactlyOne(a, b);
    ExactlyOne(b, c);
    ExactlyOne(a, c);
    if a.ce == b.ce == c.ce && (Precedes(a, b) || Precedes(b, c)) {
      SmallerIsTransitive(a.numbers, b.numbers, c.numbers);
    }
  }

  // ----- markers

  /** Removing release-candidate marks keeps any text without '-' and '.' at the front. */
  lemma {:induction false} FrontSurvives(s: string, p: string)
    requires '-' !in p && '.' !in p
    ensures HasPrefix(ReplaceAll(s, RC, "."), p) <==> HasPrefix(s, p)
  {
    if s != "" && p != "" {
      var r := ReplaceAll(s, RC, ".");
      assert |p| <= |s| ==> s[..|p|][0] == s[0] && s[..|p|][1..] == s[1..][..|p| - 1];
      assert |p| <= |r| ==> r[..|p|][0] == r[0] && r[..|p|][1..] == r[1..][..|p| - 1];
      assert p == [p[0]] + p[1..];
      if HasPrefix(s, RC) {
        assert s[0] == RC[0] == '-';
        assert r[0] == '.';
      } else {
        assert r[1..] == ReplaceAll(s[1..], RC, ".");
        FrontSurvives(s[1..], p[1..]);
      }
    }
  }

  /** Turning "-rc" into "." neither makes nor breaks a "-ce" mark. */
  lemma {:induction false} RcKeepsEdition(v: string)
    ensures Contains(ReplaceAll(v, RC, "."), CE) <==> Contains(v, CE)
    decreases |v|
  {
    if v != "" {
      var r := ReplaceAll(v, RC, ".");
      if HasPrefix(v, RC) {
        RcKeepsEdition(v[3..]);
        assert v[..3] == RC;
        assert v[0] == '-' && v[1] == 'r' && v[2] == 'c';
        assert r[1..] == ReplaceAll(v[3..], RC, ".");
        EditionAtFront(r);
        EditionAtFront(v);
        EditionAtFront(v[1..]);
        EditionAtFront(v[2..]);
        assert v[1..][1..] == v[2..] && v[2..][1..] == v[3..];
        assert Contains(v, CE) == Contains(v[1..], CE);
        assert Contains(v[1..], CE) == Contains(v[2..], CE);
        assert Contains(v[2..], CE) == Contains(v[3..], CE);
      } else {
        RcKeepsEdition(v[1..]);
        assert r[1..] == ReplaceAll(v[1..], RC, ".");
        FrontSurvives(v[1..], "ce");
        EditionAtFront(v);
        EditionAtFront(r);
      }
    }
  }

  lemma EditionAtFront(v: string)
    ensures HasPrefix(v, CE) <==> |v| >= 3 && v[0] == '-' && v[1] == 'c' && v[2] == 'e'
    ensures HasPrefix(v, CE) <==> v != "" && v[0] == '-' && HasPrefix(v[1..], "ce")
  {
    if |v| >= 3 {
      assert v[..3] == [v[0], v[1], v[2]];
      assert v[1..][..2] == [v[1], v[2]];
      assert CE == ['-', 'c', 'e'] && "ce" == ['c', 'e'];
    }
  }

  predicate AllZero(a: seq<int>) { forall i :: 0 <= i < |a| ==> a[i] == 0 }

  lemma SameIfPadded(a: seq<int>, b: seq<int>)
    ensures Same(a, a + b) <==> AllZero(b)
  {
    if Same(a, a + b) {
      forall i | 0 <= i < |b| ensures b[i] == 0 {
        assert At(a, |a| + i) == At(a + b, |a| + i);
      }
    }
  }

  lemma IntsConcat(s: seq<string>, t: seq<string>)
    ensures Ints(s + t) == Ints(s) + Ints(t)
  {
  }

  lemma NumbersOfDotted(v: string, w: string)
    requires '-' !in v
    ensures Numbers(v + "." + w) == Numbers(v) + Numbers(w)
  {
    BeforeConcat(v + ".", w, '-');
    SplitConcat(v, Before(w, '-'), '.');
    IntsConcat(Split(v, '.'), Split(Before(w, '-'), '.'));
  }

  lemma DotAtTheEnd(v: string)
    ensures Same(Numbers(v), Numbers(v + "."))
  {
    if '-' in v {
      BeforeConcat(v, ".", '-');
    } else {
      assert v + "." + "" == v + ".";
      NumbersOfDotted(v, "");
      assert Numbers("") == [0];
      SameIfPadded(Numbers(v), [0]);
    }
  }

  /** A bare "-rc" at the end makes no difference to any version. */
  lemma TrailingRcIsIgnored(v: string)
    ensures Equivalent(KeyOf(v), KeyOf(v + RC))
  {
    var r := ReplaceAll(v, RC, ".");
    ReplaceConcat(v, RC, RC, ".");
    assert ReplaceAll(RC, RC, ".") == "." + ReplaceAll("", RC, ".") == ".";
    ContainsConcat(r, ".", CE);
    assert !Contains(".", CE) by { assert !Contains("", CE); }
    ReplaceConcat(r, ".", CE, "");
    ReplaceNothing(".", CE, "");
    DotAtTheEnd(r);
    DotAtTheEnd(ReplaceAll(r, CE, ""));
  }

  lemma EditionWithSuffix(v: string, s: string)
    requires '-' !in v && s != "" && s[0] == '-'
    ensures KeyOf(v) == Key(false, Numbers(v))
    ensures KeyOf(v + s).ce <==> Contains(s, CE)
  {
    ReplaceNothing(v, RC, ".");
    ReplaceNothing(v, CE, "");
    RcKeepsEdition(v + s);
    ContainsConcat(v, s, CE);
  }

  lemma MarksInSuffix(v: string, s: string)
    requires '-' !in v && s != "" && s[0] == '-'
    ensures ReplaceAll(v + s, RC, ".") == v + ReplaceAll(s, RC, ".")
    ensures !HasPrefix(s, RC) ==> Before(ReplaceAll(s, RC, "."), '-') == ""
  {
    ReplaceNothing(v, RC, ".");
    ReplaceConcat(v, s, RC, ".");
  }

  /** The numbers of a release candidate include those after its mark; any other suffix is cut off. */
  lemma NumbersWithSuffix(v: string, s: string)
    requires '-' !in v && s != "" && s[0] == '-'
    ensures Numbers(ReplaceAll(v + s, RC, "."))
            == Numbers(v) + if HasPrefix(s, RC) then Numbers(ReplaceAll(s[3..], RC, ".")) else []
  {
    MarksInSuffix(v, s);
    if HasPrefix(s, RC) {
      var rest := ReplaceAll(s[3..], RC, ".");
      assert v + ReplaceAll(s, RC, ".") == v + "." + rest;
      NumbersOfDotted(v, rest);
    } else {
      BeforeConcat(v, ReplaceAll(s, RC, "."), '-');
    }
  }

  /** When a suffix that starts with a dash is ignored.  It always is when it marks neither
      an edition nor, at its very start, a release candidate; a release candidate's number
      counts as one more version number, so that "1.2-rc1" comes after "1.2". */
  lemma SuffixIsIgnoredExactly(v: string, s: string)
    requires '-' !in v && s != "" && s[0] == '-'
    ensures Equivalent(KeyOf(v), KeyOf(v + s)) <==>
            && !Contains(s, CE)
            && (HasPrefix(s, RC) ==> AllZero(Numbers(ReplaceAll(s[3..], RC, "."))))
  {
    EditionWithSuffix(v, s);
    NumbersWithSuffix(v, s);
    var rest := if HasPrefix(s, RC) then Numbers(ReplaceAll(s[3..], RC, ".")) else [];
    SameIfPadded(Numbers(v), rest);
  }

  lemma NumbersOfDigits(n: nat)
    requires n <= MAX_INT
    ensures '-' !in Digits(n) && Numbers(Digits(n)) == [n]
  {
    var s := Digits(n);
    assert forall c :: c in s ==> IsDigit(c);
    assert IsDigit(s[0]);
    DigitsAreRead(n);
    assert Atoi(s) == n;
    assert Split(s, '.') == [s];
  }

  /** A numbered release candidate is not equal to its release, but comes after it. */
  lemma ReleaseCandidateCounts(v: string, n: nat)
    requires '-' !in v && 0 < n <= MAX_INT
    ensures Precedes(KeyOf(v), KeyOf(v + (RC + Digits(n))))
  {
    var s := RC + Digits(n);
    assert s[..3] == RC && s[3..] == Digits(n);
    NumbersOfDigits(n);
    ReplaceNothing(s[3..], RC, ".");
    EditionOfCandidate(n);
    EditionWithSuffix(v, s);
    NumbersWithSuffix(v, s);
    LongerIsLater(Numbers(v), n);
  }

  lemma EditionOfCandidate(n: nat)
    requires n <= MAX_INT
    ensures !Contains(RC + Digits(n), CE)
  {
    var s := RC + Digits(n);
    RcKeepsEdition(s);
    NumbersOfDigits(n);
    ReplaceNothing(Digits(n), RC, ".");
    assert s[..3] == RC && s[3..] == Digits(n);
    var r := "." + Digits(n);
    assert ReplaceAll(s, RC, ".") == r;
    ReplaceNothing(r, CE, "");
  }

  lemma LongerIsLater(a: seq<int>, n: int)
    requires n > 0
    ensures Smaller(a, a + [n])
  {
    assert SameUpTo(a, a + [n], |a|);
    assert At(a, |a|) == 0 < At(a + [n], |a|);
  }

  // ----- what decides

  /** The number after the last dot decides between versions that are the same before it. */
  lemma NumberDecides(v: string, a: nat, b: nat)
    requires '-' !in v && a < b <= MAX_INT
    ensures Precedes(KeyOf(v + "." + Digits(a)), KeyOf(v + "." + Digits(b)))
  {
    DottedKey(v, a);
    DottedKey(v, b);
    LastDecides(Numbers(v), a, b);
  }

  lemma DottedKey(v: string, n: nat)
    requires '-' !in v && n <= MAX_INT
    ensures KeyOf(v + "." + Digits(n)) == Key(false, Numbers(v) + [n])
  {
    NumbersOfDigits(n);
    var w := v + "." + Digits(n);
    assert '-' !in w;
    ReplaceNothing(w, RC, ".");
    ReplaceNothing(w, CE, "");
    NumbersOfDotted(v, Digits(n));
  }

  lemma LastDecides(p: seq<int>, a: int, b: int)
    requires a < b
    ensures Smaller(p + [a], p + [b])
  {
    assert SameUpTo(p + [a], p + [b], |p|);
    assert At(p + [a], |p|) == a && At(p + [b], |p|) == b;
  }

  /** Every community edition comes after every version that is none, whatever their numbers. */
  lemma EditionsComeLast(u: string, w: string)
    requires !Contains(u, CE) && Contains(w, CE)
    ensures Precedes(KeyOf(u), KeyOf(w))
  {
    RcKeepsEdition(u);
    RcKeepsEdition(w);
  }

  // ----- community editions

  lemma EditionMarkStays(t: string)
    requires t == "" || t[0] == '-'
    ensures ReplaceAll(CE + t, RC, ".") == CE + ReplaceAll(t, RC, ".")
  {
    ReplaceConcat(CE, t, RC, ".");
    assert CE[0] == '-' && CE[1..] == "ce" && CE[1] == 'c';
    assert !HasPrefix(CE, RC) by { assert CE[..3][1] != RC[1]; }
    ReplaceNothing("ce", RC, ".");
    assert ReplaceAll(CE, RC, ".") == [CE[0]] + ReplaceAll(CE[1..], RC, ".") == CE;
  }

  lemma MarkIsTakenOut(v: string, r: string, mark: string)
    requires '-' !in v && mark != "" && mark[0] == '-' && '-' !in mark[1..]
    ensures Contains(v + (mark + r), mark)
    ensures ReplaceAll(v + (mark + r), mark, "") == v + ReplaceAll(r, mark, "")
  {
    ReplaceFront(mark, r, "");
    ContainsConcat(v, mark + r, mark);
    ReplaceConcat(v, mark + r, mark, "");
    ReplaceNothing(v, mark, "");
  }

  /** The edition's mark is taken out, and what is left counts as for any other version. */
  lemma EditionKey(v: string, t: string)
    requires '-' !in v && (t == "" || t[0] == '-')
    ensures KeyOf(v + (CE + t)) == Key(true, Numbers(v + ReplaceAll(ReplaceAll(t, RC, "."), CE, "")))
  {
    var r := ReplaceAll(t, RC, ".");
    ReplaceConcat(v, CE + t, RC, ".");
    ReplaceNothing(v, RC, ".");
    EditionMarkStays(t);
    assert ReplaceAll(v + (CE + t), RC, ".") == v + (CE + r);
    MarkIsTakenOut(v, r, CE);
  }

  lemma PlainEdition(v: string)
    requires '-' !in v
    ensures KeyOf(v + CE) == Key(true, Numbers(v))
  {
    EditionKey(v, "");
    assert v + (CE + "") == v + CE && v + "" == v;
  }

  /** The number of an edition's release candidate is one more version number. */
  lemma EditionCandidate(v: string, s: string)
    requires '-' !in v && '-' !in s
    ensures KeyOf(v + (CE + (RC + s))) == Key(true, Numbers(v) + Numbers(s))
  {
    EditionKey(v, RC + s);
    CandidateSuffix(s);
    assert v + ("." + s) == v + "." + s;
    NumbersOfDotted(v, s);
  }

  lemma CandidateSuffix(s: string)
    requires '-' !in s
    ensures ReplaceAll(ReplaceAll(RC + s, RC, "."), CE, "") == "." + s
  {
    assert (RC + s)[..3] == RC && (RC + s)[3..] == s;
    ReplaceNothing(s, RC, ".");
    assert ReplaceAll(RC + s, RC, ".") == "." + s;
    ReplaceNothing("." + s, CE, "");
  }

  /** Of two candidates of an edition the one with the smaller number comes first, and both come
      after the edition itself if their numbers are not zero. */
  lemma EditionCandidatesCount(v: string, m: nat, n: nat)
    requires '-' !in v && m < n <= MAX_INT
    ensures Precedes(KeyOf(v + (CE + (RC + Digits(m)))), KeyOf(v + (CE + (RC + Digits(n)))))
    ensures Precedes(KeyOf(v + CE), KeyOf(v + (CE + (RC + Digits(n)))))
  {
    NumbersOfDigits(m);
    NumbersOfDigits(n);
    PlainEdition(v);
    EditionCandidate(v, Digits(m));
    EditionCandidate(v, Digits(n));
    LastDecides(Numbers(v), m, n);
    LongerIsLater(Numbers(v), n);
  }
}
