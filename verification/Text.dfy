/** The parts of Go's `strings` package that the modelled code relies on, with
    the facts about them that the other modules need. */
module Text {

  predicate HasPrefix(s: string, p: string) { |p| <= |s| && s[..|p|] == p }

  /** strings.Contains */
  predicate Contains(s: string, sub: string) {
    HasPrefix(s, sub) || (s != "" && Contains(s[1..], sub))
  }

  /** The part of `s` before the first `ch`, or all of `s`. */
  function Before(s: string, ch: char): (r: string)
    ensures ch !in r
    ensures ch !in s ==> r == s
    ensures ch in s ==> |r| < |s| && s[..|r|] == r && s[|r|] == ch
  {
    if s == "" || s[0] == ch then "" else [s[0]] + Before(s[1..], ch)
  }

  /** The part of `s` after the first `ch`: the second piece of strings.SplitN(s, ch, 2). */
  function After(s: string, ch: char): (r: string)
    requires ch in s
    ensures s == Before(s, ch) + [ch] + r
  {
    s[|Before(s, ch)| + 1..]
  }

  /** strings.Split on a single character */
  function Split(s: string, ch: char): (r: seq<string>)
    ensures |r| >= 1
    decreases |s|
  {
    if ch in s then [Before(s, ch)] + Split(After(s, ch), ch) else [s]
  }

  /** strings.Replace without a limit: matches are taken from the left and do not overlap. */
  function ReplaceAll(s: string, old_: string, new_: string): string
    requires old_ != ""
    decreases |s|
  {
    if s == "" then ""
    else if HasPrefix(s, old_) then new_ + ReplaceAll(s[|old_|..], old_, new_)
    else [s[0]] + ReplaceAll(s[1..], old_, new_)
  }

  // ----- concatenation

  /** No match can straddle the seam between `v` and `w`. */
  predicate Seam(w: string, pattern: string) { w == "" || (pattern != "" && w[0] !in pattern[1..]) }

  lemma PrefixOfConcat(v: string, w: string, p: string)
    requires Seam(w, p) && v != ""
    ensures HasPrefix(v + w, p) <==> HasPrefix(v, p)
  {
    if |v| < |p| <= |v + w| {
      assert (v + w)[..|p|][|v|] == w[0];
      assert p[1..][|v| - 1] == p[|v|];
    }
    if |p| <= |v| { assert (v + w)[..|p|] == v[..|p|]; }
  }

  lemma {:induction false} ContainsConcat(v: string, w: string, p: string)
    requires Seam(w, p) && p != ""
    ensures Contains(v + w, p) <==> Contains(v, p) || Contains(w, p)
  {
    if v == "" {
      assert v + w == w;
    } else {
      PrefixOfConcat(v, w, p);
      assert (v + w)[1..] == v[1..] + w;
      ContainsConcat(v[1..], w, p);
    }
  }

  lemma {:induction false} ReplaceConcat(v: string, w: string, p: string, by_: string)
    requires Seam(w, p) && p != ""
    ensures ReplaceAll(v + w, p, by_) == ReplaceAll(v, p, by_) + ReplaceAll(w, p, by_)
    decreases |v|
  {
    if v == "" {
      assert v + w == w;
    } else {
      PrefixOfConcat(v, w, p);
      var n := if HasPrefix(v, p) then |p| else 1;
      assert (v + w)[n..] == v[n..] + w;
      ReplaceConcat(v[n..], w, p, by_);
    }
  }

  /** A text without the pattern's first character is left alone. */
  lemma {:induction false} ReplaceNothing(s: string, p: string, by_: string)
    requires p != "" && p[0] !in s
    ensures ReplaceAll(s, p, by_) == s && !Contains(s, p)
  {
    if s != "" {
      assert |p| <= |s| ==> s[..|p|][0] == s[0];
      ReplaceNothing(s[1..], p, by_);
    } else {
      assert !HasPrefix(s, p);
    }
  }

  lemma {:induction false} BeforeConcat(v: string, w: string, ch: char)
    ensures Before(v + w, ch) == if ch in v then Before(v, ch) else v + Before(w, ch)
  {
    if v == "" {
      assert v + w == w;
    } else {
      assert (v + w)[1..] == v[1..] + w;
      BeforeConcat(v[1..], w, ch);
    }
  }

  lemma CutAtConcat(v: string, w: string, ch: char)
    ensures var s := v + [ch] + w;
            && ch in s
            && Before(s, ch) == Before(v, ch)
            && After(s, ch) == if ch in v then After(v, ch) + [ch] + w else w
  {
    var s := v + [ch] + w;
    assert s[|v|] == ch;
    assert s == v + ([ch] + w);
    BeforeConcat(v, [ch] + w, ch);
    assert Before([ch] + w, ch) == "";
    if ch in v {
      assert s == Before(v, ch) + [ch] + (After(v, ch) + [ch] + w);
    }
  }

  lemma {:induction false} SplitConcat(v: string, w: string, ch: char)
    ensures Split(v + [ch] + w, ch) == Split(v, ch) + Split(w, ch)
    decreases |v|
  {
    var s := v + [ch] + w;
    CutAtConcat(v, w, ch);
    assert Split(s, ch) == [Before(v, ch)] + Split(After(s, ch), ch);
    if ch in v {
      var rest := After(v, ch);
      SplitConcat(rest, w, ch);
      assert Split(v, ch) == [Before(v, ch)] + Split(rest, ch);
    }
  }

  /** A match at the front is found and replaced. */
  lemma ReplaceFront(p: string, w: string, by_: string)
    requires p != ""
    ensures Contains(p + w, p) && ReplaceAll(p + w, p, by_) == by_ + ReplaceAll(w, p, by_)
  {
    assert (p + w)[..|p|] == p && (p + w)[|p|..] == w;
  }
}
