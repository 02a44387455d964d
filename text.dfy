/**
 * The Python `str` operations the template parser is built on: `isspace`,
 * `strip`, `splitlines`, `"\n".join`, `split()`, `lower()` and `int()`.
 * Each is given as a function whose contract says what it computes, with
 * the round trips that pin it down proved as lemmas.
 */
module Text {
  import opened Wrappers

  // ---------------------------------------------------------------------------
  // Whitespace and strip
  // ---------------------------------------------------------------------------

  /** Python's `str.isspace` for one character; also what `\s` matches in a `str` regex. */
  predicate IsSpace(c: char) {
    var n := c as int;
    (0x09 <= n <= 0x0D) || (0x1C <= n <= 0x20) || n == 0x85 || n == 0xA0 || n == 0x1680
    || (0x2000 <= n <= 0x200A) || n == 0x2028 || n == 0x2029 || n == 0x202F
    || n == 0x205F || n == 0x3000
  }

  predicate AllSpace(s: string) {
    forall i :: 0 <= i < |s| ==> IsSpace(s[i])
  }

  predicate NoSpace(s: string) {
    forall i :: 0 <= i < |s| ==> !IsSpace(s[i])
  }

  /** Neither end of `s` is whitespace: the shape `strip` leaves. */
  predicate IsStripped(s: string) {
    s == [] || (!IsSpace(s[0]) && !IsSpace(s[|s| - 1]))
  }

  /** The end of the run of whitespace that starts at index `i`. */
  function SpaceRunEnd(s: string, i: nat): (k: nat)
    requires i <= |s|
    ensures i <= k <= |s|
    ensures forall j :: i <= j < k ==> IsSpace(s[j])
    ensures k < |s| ==> !IsSpace(s[k])
    decreases |s| - i
  {
    if i < |s| && IsSpace(s[i]) then SpaceRunEnd(s, i + 1) else i
  }

  /** The start of the run of whitespace that ends at index `j`. */
  function SpaceRunStart(s: string, j: nat): (k: nat)
    requires j <= |s|
    ensures k <= j
    ensures forall m :: k <= m < j ==> IsSpace(s[m])
    ensures 0 < k ==> !IsSpace(s[k - 1])
  {
    if 0 < j && IsSpace(s[j - 1]) then SpaceRunStart(s, j - 1) else j
  }

  /** A run of whitespace from `i` that stops at `k` is the run `SpaceRunEnd` finds. */
  lemma {:induction false} SpaceRunEndAt(s: string, i: nat, k: nat)
    requires i <= k <= |s| && (forall j :: i <= j < k ==> IsSpace(s[j])) && (k < |s| ==> !IsSpace(s[k]))
    ensures SpaceRunEnd(s, i) == k
    decreases k - i
  {
    if i < k {
      SpaceRunEndAt(s, i + 1, k);
    }
  }

  /** A run of whitespace up to `j` that starts at `k` is the run `SpaceRunStart` finds. */
  lemma {:induction false} SpaceRunStartAt(s: string, j: nat, k: nat)
    requires k <= j <= |s| && (forall m :: k <= m < j ==> IsSpace(s[m])) && (0 < k ==> !IsSpace(s[k - 1]))
    ensures SpaceRunStart(s, j) == k
    decreases j - k
  {
    if k < j {
      SpaceRunStartAt(s, j - 1, k);
    }
  }

  /** Python's `str.lstrip()`: the suffix left after dropping leading whitespace. */
  function TrimLeft(s: string): (r: string)
    ensures |r| <= |s| && r == s[|s| - |r|..]
    ensures AllSpace(s[..|s| - |r|])
    ensures r == [] || !IsSpace(r[0])
  {
    s[SpaceRunEnd(s, 0)..]
  }

  /** Python's `str.rstrip()`: the prefix left after dropping trailing whitespace. */
  function TrimRight(s: string): (r: string)
    ensures |r| <= |s| && r == s[..|r|]
    ensures AllSpace(s[|r|..])
    ensures r == [] || !IsSpace(r[|r| - 1])
  {
    s[..SpaceRunStart(s, |s|)]
  }

  /** Python's `str.strip()` with no argument. */
  function Strip(s: string): (r: string)
    ensures IsStripped(r)
    ensures r == [] <==> AllSpace(s)
    ensures |r| <= |s|
  {
    var t := TrimLeft(s);
    assert t == [] ==> AllSpace(s) by {
      if t == [] { assert s[..|s| - |t|] == s; }
    }
    TrimRight(t)
  }

  lemma TrimLeftAfterSpace(pre: string, x: string)
    requires AllSpace(pre) && (x == [] || !IsSpace(x[0]))
    ensures TrimLeft(pre + x) == x
  {
    var s := pre + x;
    assert forall j :: 0 <= j < |pre| ==> s[j] == pre[j];
    assert |pre| < |s| ==> s[|pre|] == x[0];
    SpaceRunEndAt(s, 0, |pre|);
    assert s[|pre|..] == x;
  }

  lemma TrimRightBeforeSpace(x: string, post: string)
    requires AllSpace(post) && (x == [] || !IsSpace(x[|x| - 1]))
    ensures TrimRight(x + post) == x
  {
    var s := x + post;
    assert forall m :: |x| <= m < |s| ==> s[m] == post[m - |x|];
    assert 0 < |x| ==> s[|x| - 1] == x[|x| - 1];
    SpaceRunStartAt(s, |s|, |x|);
    assert s[..|x|] == x;
  }

  /** `strip` removes exactly the whitespace around a stripped core. */
  lemma StripAround(pre: string, mid: string, post: string)
    requires AllSpace(pre) && AllSpace(post) && IsStripped(mid)
    ensures Strip(pre + mid + post) == mid
  {
    if mid == [] {
      assert AllSpace(pre + mid + post) by {
        var s := pre + mid + post;
        forall i | 0 <= i < |s| ensures IsSpace(s[i]) {
          if i < |pre| { assert s[i] == pre[i]; } else { assert s[i] == post[i - |pre|]; }
        }
      }
    } else {
      assert pre + mid + post == pre + (mid + post);
      TrimLeftAfterSpace(pre, mid + post);
      TrimRightBeforeSpace(mid, post);
    }
  }

  lemma StripOfStripped(s: string)
    requires IsStripped(s)
    ensures Strip(s) == s
  {
    StripAround("", s, "");
    assert "" + s + "" == s;
  }

  // ---------------------------------------------------------------------------
  // Lines
  // ---------------------------------------------------------------------------

  /** The line boundaries of Python's `str.splitlines` ("\r\n" counts as one). */
  predicate IsLineBreak(c: char) {
    var n := c as int;
    (0x0A <= n <= 0x0D) || (0x1C <= n <= 0x1E) || n == 0x85 || n == 0x2028 || n == 0x2029
  }

  predicate NoBreaks(s: string) {
    forall i :: 0 <= i < |s| ==> !IsLineBreak(s[i])
  }

  /** The length of the first line of `s`. */
  function LineEnd(s: string): (k: nat)
    ensures k <= |s| && NoBreaks(s[..k])
    ensures k < |s| ==> IsLineBreak(s[k])
  {
    if s == [] || IsLineBreak(s[0]) then 0 else 1 + LineEnd(s[1..])
  }

  /** Python's `str.splitlines()`: no line keeps its break, and a final break opens no empty line. */
  function SplitLines(s: string): (lines: seq<string>)
    ensures forall i :: 0 <= i < |lines| ==> NoBreaks(lines[i])
    ensures |lines| <= |s|
    decreases |s|
  {
    if s == [] then []
    else
      var k := LineEnd(s);
      if k == |s| then [s]
      else
        var next := if s[k] == '\r' && k + 1 < |s| && s[k + 1] == '\n' then k + 2 else k + 1;
        [s[..k]] + SplitLines(s[next..])
  }

  /** Every line followed by a newline: the text an editor saves for `lines`. */
  function Unlines(lines: seq<string>): string {
    if lines == [] then "" else lines[0] + "\n" + Unlines(lines[1..])
  }

  lemma {:induction false} LineEndAt(l: string, rest: string)
    requires NoBreaks(l) && rest != [] && IsLineBreak(rest[0])
    ensures LineEnd(l + rest) == |l|
  {
    if l != [] {
      assert (l + rest)[0] == l[0];
      assert (l + rest)[1..] == l[1..] + rest;
      LineEndAt(l[1..], rest);
    } else {
      assert l + rest == rest;
    }
  }

  /** Splitting the saved text of break-free lines gives those lines back. */
  lemma {:induction false} SplitUnlines(lines: seq<string>)
    requires forall i :: 0 <= i < |lines| ==> NoBreaks(lines[i])
    ensures SplitLines(Unlines(lines)) == lines
  {
    if lines != [] {
      var l := lines[0];
      var rest := Unlines(lines[1..]);
      var s := Unlines(lines);
      assert s == l + ("\n" + rest);
      LineEndAt(l, "\n" + rest);
      assert s[..|l|] == l;
      assert s[|l| + 1..] == rest;
      SplitUnlines(lines[1..]);
    }
  }

  /** Python's `"\n".join(lines)`. */
  function JoinLines(lines: seq<string>): string {
    if lines == [] then ""
    else if |lines| == 1 then lines[0]
    else lines[0] + "\n" + JoinLines(lines[1..])
  }

  /** Joining non-empty stripped lines leaves nothing for `strip` to remove. */
  lemma {:induction false} JoinOfStripped(lines: seq<string>)
    requires forall i :: 0 <= i < |lines| ==> lines[i] != [] && IsStripped(lines[i])
    ensures JoinLines(lines) == [] <==> lines == []
    ensures IsStripped(JoinLines(lines))
  {
    if |lines| > 1 {
      JoinOfStripped(lines[1..]);
      var j := JoinLines(lines);
      var tail := JoinLines(lines[1..]);
      assert j == lines[0] + "\n" + tail;
      assert j[0] == lines[0][0];
      assert j[|j| - 1] == tail[|tail| - 1];
    }
  }

  // ---------------------------------------------------------------------------
  // Words
  // ---------------------------------------------------------------------------

  /** The end of the run of non-whitespace that starts at index `i`. */
  function WordRunEnd(s: string, i: nat): (k: nat)
    requires i <= |s|
    ensures i <= k <= |s|
    ensures forall j :: i <= j < k ==> !IsSpace(s[j])
    ensures k < |s| ==> IsSpace(s[k])
    decreases |s| - i
  {
    if i < |s| && !IsSpace(s[i]) then WordRunEnd(s, i + 1) else i
  }

  /** A run of non-whitespace from `i` that stops at `k` is the run `WordRunEnd` finds. */
  lemma {:induction false} WordRunEndAt(s: string, i: nat, k: nat)
    requires i <= k <= |s| && (forall j :: i <= j < k ==> !IsSpace(s[j])) && (k < |s| ==> IsSpace(s[k]))
    ensures WordRunEnd(s, i) == k
    decreases k - i
  {
    if i < k {
      WordRunEndAt(s, i + 1, k);
    }
  }

  /** A maximal run of non-whitespace. */
  predicate IsWord(w: string) {
    w != [] && NoSpace(w)
  }

  /** The words of `s` from index `i` on. */
  function WordsFrom(s: string, i: nat): (words: seq<string>)
    requires i <= |s|
    ensures |words| == 0 <==> forall j :: i <= j < |s| ==> IsSpace(s[j])
    ensures forall m :: 0 <= m < |words| ==> IsWord(words[m])
    decreases |s| - i
  {
    var a := SpaceRunEnd(s, i);
    if a == |s| then []
    else
      var b := WordRunEnd(s, a);
      var w := s[a..b];
      assert forall j :: 0 <= j < |w| ==> w[j] == s[a + j];
      [w] + WordsFrom(s, b)
  }

  /** Python's `str.split()` with no argument: the maximal runs of non-whitespace, in order. */
  function Words(s: string): (words: seq<string>)
    ensures |words| == 0 <==> AllSpace(s)
    ensures forall i :: 0 <= i < |words| ==> IsWord(words[i])
  {
    WordsFrom(s, 0)
  }

  /** A word from index `i` to `e`, followed by whitespace or the end, is the next word. */
  lemma WordsFromWord(s: string, i: nat, e: nat, w: string)
    requires IsWord(w) && e == i + |w| <= |s| && forall j :: 0 <= j < |w| ==> s[i + j] == w[j]
    requires e < |s| ==> IsSpace(s[e])
    ensures WordsFrom(s, i) == [w] + WordsFrom(s, e)
  {
    assert s[i..e] == w;
    SpaceRunEndAt(s, i, i);
    WordRunEndAt(s, i, e);
  }

  /** Whitespace before the next word is skipped. */
  lemma WordsFromSpace(s: string, i: nat)
    requires i < |s| && IsSpace(s[i])
    ensures WordsFrom(s, i) == WordsFrom(s, i + 1)
  {
    assert SpaceRunEnd(s, i) == SpaceRunEnd(s, i + 1);
  }

  /** A run of whitespace before the next word is skipped. */
  lemma WordsFromSpaces(s: string, i: nat, k: nat)
    requires i <= k <= |s| && forall j :: i <= j < k ==> IsSpace(s[j])
    ensures WordsFrom(s, i) == WordsFrom(s, k)
  {
    var e := SpaceRunEnd(s, k);
    SpaceRunEndAt(s, i, e);
  }

  /** A command line of one word, with whitespace around it, splits into that word. */
  lemma WordsOfOne(pre: string, w: string, post: string)
    requires AllSpace(pre) && IsWord(w) && AllSpace(post)
    ensures Words(pre + w + post) == [w]
  {
    assert pre + w + post == pre + (w + post);
    WordsAfterSpace(pre, w + post);
    WordsOfLeadingWord(w, post);
  }

  /** The word of `s` that starts at `i` runs to the next whitespace, at `b`. */
  lemma WordAt(s: string, i: nat) returns (w: string, b: nat)
    requires i < |s| && !IsSpace(s[i])
    ensures b == i + |w| <= |s| && IsWord(w) && w == s[i..b]
    ensures b < |s| ==> IsSpace(s[b])
    ensures WordsFrom(s, i) == [w] + WordsFrom(s, b)
  {
    b := WordRunEnd(s, i);
    w := s[i..b];
    assert IsWord(w) by {
      assert w[0] == s[i];
      forall j | 0 <= j < |w|
        ensures !IsSpace(w[j])
      {
        assert w[j] == s[i + j];
      }
    }
    WordsFromWord(s, i, b, w);
  }

  /**
   * A word of the suffix `t[d..]` that runs from `k - d` to `e - d`, followed
   * by whitespace or the end, is also a word of `t` from `k` to `e`.
   */
  lemma WordAtShifted(t: string, d: nat, k: nat, e: nat, w: string)
    requires d <= k && e == k + |w| <= |t| && IsWord(w) && w == t[d..][k - d..e - d]
    requires e < |t| ==> IsSpace(t[d..][e - d])
    ensures WordsFrom(t, k) == [w] + WordsFrom(t, e)
  {
    forall j | 0 <= j < |w|
      ensures t[k + j] == w[j]
    {
      assert w[j] == t[d..][k - d + j];
    }
    assert e < |t| ==> t[e] == t[d..][e - d];
    WordsFromWord(t, k, e, w);
  }

  /** Whitespace at `k` in `t`, at `i = k - d` in `t[d..]`, is skipped in both. */
  lemma ShiftSpaceStep(t: string, d: nat, k: nat, i: nat)
    requires k == d + i && k < |t| && IsSpace(t[k])
    ensures WordsFrom(t, k) == WordsFrom(t, k + 1)
    ensures WordsFrom(t[d..], i) == WordsFrom(t[d..], i + 1)
  {
    assert t[d..][i] == t[k];
    WordsFromSpace(t, k);
    WordsFromSpace(t[d..], i);
  }

  /** A word at `k` in `t`, at `i = k - d` in `t[d..]`, is the next word of both. */
  lemma ShiftWordStep(t: string, d: nat, k: nat, i: nat) returns (w: string, e: nat, b: nat)
    requires k == d + i && k < |t| && !IsSpace(t[k])
    ensures e == d + b && k < e <= |t|
    ensures WordsFrom(t, k) == [w] + WordsFrom(t, e)
    ensures WordsFrom(t[d..], i) == [w] + WordsFrom(t[d..], b)
  {
    assert t[d..][i] == t[k];
    w, b := WordAt(t[d..], i);
    e := d + b;
    WordAtShifted(t, d, k, e, w);
  }

  /**
   * The words of `t` from `k` on are the words of the suffix `t[d..]` from
   * `i = k - d` on: what comes before `d` does not matter.
   */
  lemma {:induction false} WordsFromShift(t: string, d: nat, k: nat, i: nat)
    requires k == d + i && k <= |t|
    ensures WordsFrom(t, k) == WordsFrom(t[d..], i)
    decreases |t| - k
  {
    if k == |t| {
      assert WordsFrom(t, k) == [];
    } else if IsSpace(t[k]) {
      ShiftSpaceStep(t, d, k, i);
      WordsFromShift(t, d, k + 1, i + 1);
    } else {
      var w, e, b := ShiftWordStep(t, d, k, i);
      WordsFromShift(t, d, e, b);
    }
  }

  /** Leading whitespace does not change the words. */
  lemma WordsAfterSpace(sp: string, x: string)
    requires AllSpace(sp)
    ensures Words(sp + x) == Words(x)
  {
    var s := sp + x;
    forall j | 0 <= j < |sp|
      ensures IsSpace(s[j])
    {
      assert s[j] == sp[j];
    }
    WordsFromSpaces(s, 0, |sp|);
    assert s[|sp|..] == x;
    WordsFromShift(s, |sp|, |sp|, 0);
  }

  /** A word at the front, followed by whitespace or nothing, is the first word. */
  lemma WordsOfLeadingWord(w: string, y: string)
    requires IsWord(w) && (y == [] || IsSpace(y[0]))
    ensures Words(w + y) == [w] + Words(y)
  {
    var s := w + y;
    assert forall j :: 0 <= j < |w| ==> s[j] == w[j];
    assert |w| < |s| ==> s[|w|] == y[0];
    WordsFromWord(s, 0, |w|, w);
    assert s[|w|..] == y;
    WordsFromShift(s, |w|, |w|, 0);
  }

  /** A word followed by whitespace is the first word, and the rest splits on its own. */
  lemma WordsCons(pre: string, w: string, sp: string, rest: string)
    requires AllSpace(pre) && IsWord(w) && sp != [] && AllSpace(sp)
    ensures Words(pre + w + sp + rest) == [w] + Words(rest)
  {
    assert pre + w + sp + rest == pre + (w + (sp + rest));
    WordsAfterSpace(pre, w + (sp + rest));
    WordsOfLeadingWord(w, sp + rest);
    WordsAfterSpace(sp, rest);
  }

  // ---------------------------------------------------------------------------
  // Case
  // ---------------------------------------------------------------------------

  function LowerChar(c: char): char {
    if 'A' <= c <= 'Z' then (c as int + 32) as char else c
  }

  /** `str.lower()` on ASCII letters; every other character is kept. */
  function AsciiLower(s: string): (r: string)
    ensures |r| == |s|
    ensures forall i :: 0 <= i < |r| ==> !('A' <= r[i] <= 'Z')
    ensures forall i :: 0 <= i < |s| ==> r[i] == s[i] || (r[i] as int == s[i] as int + 32 && 'A' <= s[i] <= 'Z')
  {
    seq(|s|, i requires 0 <= i < |s| => LowerChar(s[i]))
  }

  // ---------------------------------------------------------------------------
  // Integers
  // ---------------------------------------------------------------------------

  predicate IsDigit(c: char) {
    '0' <= c <= '9'
  }

  function DigitValue(c: char): nat
    requires IsDigit(c)
  {
    c as int - '0' as int
  }

  predicate DigitsOrUnderscores(s: string) {
    forall i :: 0 <= i < |s| ==> IsDigit(s[i]) || s[i] == '_'
  }

  predicate AllDigits(s: string) {
    forall i :: 0 <= i < |s| ==> IsDigit(s[i])
  }

  /** Digits alone, without underscores, are a digit string. */
  lemma AllDigitsIsDigitString(s: string)
    requires s != [] && AllDigits(s)
    ensures IsDigitString(s)
  {
  }

  predicate DoubleUnderscoreAt(s: string, i: nat)
    requires i + 1 < |s|
  {
    s[i] == '_' && s[i + 1] == '_'
  }

  /** Python's decimal digits: digits with single underscores between them. */
  predicate IsDigitString(s: string) {
    && s != [] && IsDigit(s[0]) && IsDigit(s[|s| - 1])
    && DigitsOrUnderscores(s)
    && forall i :: 0 <= i < |s| - 1 ==> !DoubleUnderscoreAt(s, i)
  }

  /** The value of a run of digits, underscores ignored. */
  function DigitsValue(s: string): nat
    requires DigitsOrUnderscores(s)
  {
    if s == [] then 0
    else if s[|s| - 1] == '_' then DigitsValue(s[..|s| - 1])
    else DigitsValue(s[..|s| - 1]) * 10 + DigitValue(s[|s| - 1])
  }

  /** A single digit is worth its digit value. */
  lemma DigitsValueOfDigit(c: char)
    requires IsDigit(c)
    ensures DigitsValue([c]) == DigitValue(c)
  {
    assert [c][..0] == [];
  }

  /** The value of a decimal digit string, if `digits` is one. */
  function DecimalValue(digits: string): (r: Option<int>)
    ensures r.Some? <==> IsDigitString(digits)
    ensures r.Some? ==> r.value == DigitsValue(digits)
  {
    if IsDigitString(digits) then Some(DigitsValue(digits)) else None
  }

  /** Python's `int(s)` in base 10: optional surrounding whitespace and sign, then digits. */
  function ParseInt(s: string): (r: Option<int>)
    ensures r.Some? ==> exists i :: 0 <= i < |s| && IsDigit(s[i])
  {
    var t := Strip(s);
    var r := ParseSignedDecimal(t);
    if r.Some? then
      ParseIntHasDigit(s, t, if IsDigit(t[0]) then 0 else 1);
      r
    else r
  }

  /** An optional sign followed by a decimal digit string. */
  function ParseSignedDecimal(t: string): (r: Option<int>)
    ensures r.Some? ==> t != [] && (IsDigit(t[0]) || (|t| > 1 && IsDigit(t[1])))
  {
    if t != [] && t[0] == '-' then
      match DecimalValue(t[1..])
      case None => None
      case Some(v) => Some(-v)
    else if t != [] && t[0] == '+' then DecimalValue(t[1..])
    else DecimalValue(t)
  }

  lemma ParseIntHasDigit(s: string, t: string, k: nat)
    requires t == Strip(s) && k < |t| && IsDigit(t[k])
    ensures exists i :: 0 <= i < |s| && IsDigit(s[i])
  {
    var l := TrimLeft(s);
    assert t == TrimRight(l) == l[..|t|];
    assert s[|s| - |l| + k] == t[k];
  }

  function DigitChar(d: nat): (c: char)
    requires d < 10
    ensures IsDigit(c) && DigitValue(c) == d
  {
    ('0' as int + d) as char
  }

  /** Python's `str(n)` for a natural number. */
  function ShowNat(n: nat): (s: string)
    ensures s != [] && AllDigits(s)
    ensures DigitsValue(s) == n
  {
    if n < 10 then [DigitChar(n)]
    else
      var s := ShowNat(n / 10) + [DigitChar(n % 10)];
      assert s[..|s| - 1] == ShowNat(n / 10);
      s
  }

  /** Python's `str(n)`. */
  function ShowInt(n: int): string {
    if n < 0 then "-" + ShowNat(-n) else ShowNat(n)
  }

  /** `int(str(n)) == n`. */
  lemma ParseShowInt(n: int)
    ensures ParseInt(ShowInt(n)) == Some(n)
  {
    if n < 0 {
      ParseSigned(ShowNat(-n));
    } else {
      ParseUnsigned(ShowNat(n));
    }
  }

  lemma ParseUnsigned(digits: string)
    requires digits != [] && AllDigits(digits)
    ensures ParseInt(digits) == Some(DigitsValue(digits))
  {
    AllDigitsIsDigitString(digits);
    assert DecimalValue(digits) == Some(DigitsValue(digits));
    assert digits[0] != '-' && digits[0] != '+';
    assert ParseSignedDecimal(digits) == Some(DigitsValue(digits));
    ParseIntOfStripped(digits);
  }

  lemma ParseSigned(digits: string)
    requires digits != [] && AllDigits(digits)
    ensures ParseInt("-" + digits) == Some(-(DigitsValue(digits) as int))
  {
    AllDigitsIsDigitString(digits);
    NegativeDecimal(digits);
    ParseIntOfStripped("-" + digits);
  }

  lemma NegativeDecimal(digits: string)
    requires IsDigitString(digits)
    ensures IsStripped("-" + digits)
    ensures ParseSignedDecimal("-" + digits) == Some(-(DigitsValue(digits) as int))
  {
    var s := "-" + digits;
    assert s[|s| - 1] == digits[|digits| - 1];
    assert s[0] == '-' && s[1..] == digits;
  }

  /**
   * What `int` accepts: once stripped, the text is a decimal digit string
   * with an optional `+` or `-` in front, and its value is that of the
   * digits, negated after a `-`. Anything else (`4x`, `--5`, `1__0`, `_1`)
   * is refused.
   */
  lemma ParseIntSound(s: string) returns (digits: string)
    requires ParseInt(s).Some?
    ensures IsDigitString(digits)
    ensures Strip(s) == digits || Strip(s) == "+" + digits || Strip(s) == "-" + digits
    ensures ParseInt(s) == Some(if Strip(s)[0] == '-' then -(DigitsValue(digits) as int) else DigitsValue(digits) as int)
  {
    var t := Strip(s);
    if t[0] == '-' || t[0] == '+' {
      digits := t[1..];
      assert t == [t[0]] + digits;
    } else {
      digits := t;
    }
  }

  /**
   * And every such text is accepted: whitespace, an optional sign and a
   * decimal digit string read as the signed value of the digits.
   */
  lemma ParseIntComplete(pre: string, sign: string, digits: string, post: string)
    requires AllSpace(pre) && AllSpace(post) && IsDigitString(digits)
    requires sign == "" || sign == "+" || sign == "-"
    ensures ParseInt(pre + sign + digits + post) ==
      Some(if sign == "-" then -(DigitsValue(digits) as int) else DigitsValue(digits) as int)
  {
    var mid := sign + digits;
    assert IsStripped(mid) by {
      assert mid[|mid| - 1] == digits[|digits| - 1];
      assert mid[0] == if sign == "" then digits[0] else sign[0];
    }
    assert pre + sign + digits + post == pre + mid + post;
    ParseIntOfPadded(pre, mid, post);
    if sign == "-" {
      NegativeDecimal(digits);
    } else if sign == "+" {
      assert mid[0] == '+' && mid[1..] == digits;
    } else {
      assert mid == digits && digits[0] != '-' && digits[0] != '+';
    }
  }

  /** Whitespace around a stripped text does not change what `int` reads. */
  lemma ParseIntOfPadded(pre: string, mid: string, post: string)
    requires AllSpace(pre) && AllSpace(post) && IsStripped(mid)
    ensures ParseInt(pre + mid + post) == ParseSignedDecimal(mid)
  {
    StripAround(pre, mid, post);
  }

  /** A single underscore between two digit strings is allowed and does not change the value. */
  lemma UnderscoresIgnored(a: string, b: string)
    requires IsDigitString(a) && IsDigitString(b)
    ensures IsDigitString(a + "_" + b) && IsDigitString(a + b)
    ensures DigitsValue(a + "_" + b) == DigitsValue(a + b)
  {
    var u := a + "_" + b;
    assert forall i :: 0 <= i < |u| ==> u[i] == if i < |a| then a[i] else if i == |a| then '_' else b[i - |a| - 1];
    assert forall i :: 0 <= i < |u| - 1 ==> !DoubleUnderscoreAt(u, i) by {
      forall i | 0 <= i < |u| - 1 ensures !DoubleUnderscoreAt(u, i) {
        if i < |a| - 1 {
          assert !DoubleUnderscoreAt(a, i);
        } else if i + 1 > |a| + 1 {
          assert !DoubleUnderscoreAt(b, i - |a| - 1);
        }
      }
    }
    var v := a + b;
    assert forall i :: 0 <= i < |v| ==> v[i] == if i < |a| then a[i] else b[i - |a|];
    assert forall i :: 0 <= i < |v| - 1 ==> !DoubleUnderscoreAt(v, i) by {
      forall i | 0 <= i < |v| - 1 ensures !DoubleUnderscoreAt(v, i) {
        if i < |a| - 1 {
          assert !DoubleUnderscoreAt(a, i);
        } else if i >= |a| {
          assert !DoubleUnderscoreAt(b, i - |a|);
        }
      }
    }
    DigitsValueSkipsUnderscore(a, b);
  }

  lemma {:induction false} DigitsValueSkipsUnderscore(x: string, y: string)
    requires DigitsOrUnderscores(x) && DigitsOrUnderscores(y)
    ensures DigitsOrUnderscores(x + "_" + y) && DigitsOrUnderscores(x + y)
    ensures DigitsValue(x + "_" + y) == DigitsValue(x + y)
    decreases |y|
  {
    var u, v := x + "_" + y, x + y;
    assert forall i :: 0 <= i < |u| ==> u[i] == if i < |x| then x[i] else if i == |x| then '_' else y[i - |x| - 1];
    assert forall i :: 0 <= i < |v| ==> v[i] == if i < |x| then x[i] else y[i - |x|];
    if y == [] {
      assert u[..|u| - 1] == x && v == x;
    } else {
      var y' := y[..|y| - 1];
      DigitsValueSkipsUnderscore(x, y');
      assert u[..|u| - 1] == x + "_" + y';
      assert v[..|v| - 1] == x + y';
    }
  }

  /** On text without surrounding whitespace, `int` reads the sign and the digits directly. */
  lemma ParseIntOfStripped(t: string)
    requires IsStripped(t)
    ensures ParseInt(t) == ParseSignedDecimal(t)
  {
    StripOfStripped(t);
  }
}
