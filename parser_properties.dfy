/**
 * What the criteria and courses checks of the template parser accept and
 * produce, proved about their specifications (`ParseCriterionLine`,
 * `ParseCriteria`, `ParseCourseLine`, `ParseCourses`) and the order in
 * which the checks after the scan report errors.
 */
module ParserProperties {
  import opened Wrappers
  import opened Text
  import opened Models
  import opened Matchers
  import opened Editor

  // ---------------------------------------------------------------------------
  // One criterion line
  // ---------------------------------------------------------------------------

  /** A criteria line is refused as malformed exactly when it is no `\criterion{..}{..}` invocation. */
  lemma CriterionLineRejected(raw: string)
    ensures ParseCriterionLine(raw) == Err(BadCriterionLine(raw)) <==> !IsInvocation(raw, "criterion", 2)
  {
    MatchExactly(raw, "criterion", 2);
  }

  /**
   * An accepted line is an invocation whose first group, stripped, is the
   * description and whose second, stripped, reads as the points.
   */
  lemma CriterionLineSound(raw: string) returns (pre: string, gs: seq<string>, post: string)
    requires ParseCriterionLine(raw).Ok?
    ensures |gs| == 2 && AllGroups(gs) && AllSpace(pre) && AllSpace(post)
    ensures raw == pre + Command("criterion", gs) + post
    ensures ParseCriterionLine(raw).value.description == Strip(gs[0])
    ensures ParseInt(Strip(gs[1])) == Some(ParseCriterionLine(raw).value.points)
  {
    pre, post := MatchSound(raw, "criterion", 2);
    gs := MatchCriterion(raw).value;
  }

  /** Writing a stripped description and the decimal form of any integer gives that criterion back. */
  lemma CriterionLineRoundTrip(pre: string, description: string, points: int, post: string)
    requires AllSpace(pre) && AllSpace(post)
    requires NoCloseBrace(description) && IsStripped(description)
    ensures ParseCriterionLine(pre + Command("criterion", [description, ShowInt(points)]) + post)
      == Ok(Criterion(description, points))
  {
    var shown := ShowInt(points);
    ShowIntStripped(points);
    var gs := [description, shown];
    assert AllGroups(gs);
    MatchComplete(pre, "criterion", gs, post);
    StripOfStripped(description);
    StripOfStripped(shown);
    ParseShowInt(points);
  }

  /** The decimal form of an integer has no whitespace at its ends and no `}`. */
  lemma ShowIntStripped(n: int)
    ensures IsStripped(ShowInt(n)) && NoCloseBrace(ShowInt(n))
  {
    var s := ShowInt(n);
    var digits := ShowNat(if n < 0 then -n else n);
    if n < 0 {
      assert s == "-" + digits;
      assert forall i :: 1 <= i < |s| ==> s[i] == digits[i - 1];
    }
  }

  /**
   * Any two-group invocation reads as its stripped description with the
   * points `int()` gives for its stripped second group, and is refused only
   * when `int()` refuses them.
   */
  lemma CriterionLineOfGroups(pre: string, gs: seq<string>, post: string)
    requires |gs| == 2 && AllGroups(gs) && AllSpace(pre) && AllSpace(post)
    ensures ParseCriterionLine(pre + Command("criterion", gs) + post) ==
      match ParseInt(Strip(gs[1]))
      case None => Err(BadPoints(Strip(gs[1])))
      case Some(p) => Ok(Criterion(Strip(gs[0]), p))
  {
    MatchComplete(pre, "criterion", gs, post);
  }

  /**
   * Points in any spelling `int()` accepts are read with their value: an
   * optional sign, digits with single underscores between them, leading
   * zeros, and whitespace around them, so `+5`, `007` and `1_000` read as
   * 5, 7 and 1000.
   */
  lemma CriterionPointsSpelling(pre: string, description: string, a: string, sign: string, digits: string,
                                b: string, post: string)
    requires AllSpace(pre) && AllSpace(post) && AllSpace(a) && AllSpace(b) && NoCloseBrace(description)
    requires sign == "" || sign == "+" || sign == "-"
    requires IsDigitString(digits)
    ensures ParseCriterionLine(pre + Command("criterion", [description, a + sign + digits + b]) + post)
      == Ok(Criterion(Strip(description),
                      if sign == "-" then -(DigitsValue(digits) as int) else DigitsValue(digits) as int))
  {
    var points := a + sign + digits + b;
    PaddedSignedDigits(a, sign, digits, b);
    PairOfGroups(description, points);
    CriterionLineOfGroups(pre, [description, points], post);
  }

  /** Two brace groups make a group list. */
  lemma PairOfGroups(x: string, y: string)
    requires NoCloseBrace(x) && NoCloseBrace(y)
    ensures AllGroups([x, y])
  {
    var gs := [x, y];
    assert gs[0] == x && gs[1] == y;
  }

  /** A signed digit string with whitespace around it is a brace group that `int()` reads once stripped. */
  lemma PaddedSignedDigits(a: string, sign: string, digits: string, b: string)
    requires AllSpace(a) && AllSpace(b)
    requires sign == "" || sign == "+" || sign == "-"
    requires IsDigitString(digits)
    ensures NoCloseBrace(a + sign + digits + b)
    ensures ParseInt(Strip(a + sign + digits + b))
      == Some(if sign == "-" then -(DigitsValue(digits) as int) else DigitsValue(digits) as int)
  {
    var mid := sign + digits;
    SignedDigits(sign, digits);
    PaddedGroup(a, mid, b);
    Regroup(a, sign, digits, b);
  }

  /** Concatenation regroups. */
  lemma Regroup(a: string, x: string, y: string, b: string)
    ensures a + x + y + b == a + (x + y) + b
  {
    var l, r := a + x + y + b, a + (x + y) + b;
    assert |l| == |r|;
    forall i | 0 <= i < |l|
      ensures l[i] == r[i]
    {
    }
  }

  /** A sign followed by digits is stripped, holds no closing brace and is read by `int()` with its value. */
  lemma SignedDigits(sign: string, digits: string)
    requires sign == "" || sign == "+" || sign == "-"
    requires IsDigitString(digits)
    ensures IsStripped(sign + digits) && NoCloseBrace(sign + digits)
    ensures ParseInt(sign + digits)
      == Some(if sign == "-" then -(DigitsValue(digits) as int) else DigitsValue(digits) as int)
  {
    var mid := sign + digits;
    assert IsStripped(mid) by {
      assert mid[0] == if sign == "" then digits[0] else sign[0];
      assert mid[|mid| - 1] == digits[|digits| - 1];
    }
    assert NoCloseBrace(mid) by {
      forall i | 0 <= i < |mid|
        ensures mid[i] != '}'
      {
        if i >= |sign| {
          assert mid[i] == digits[i - |sign|];
        }
      }
    }
    assert [] + sign + digits + [] == mid;
    ParseIntComplete([], sign, digits, []);
  }

  /** Whitespace around a stripped brace group keeps it a brace group that strips back to itself. */
  lemma PaddedGroup(a: string, g: string, b: string)
    requires AllSpace(a) && AllSpace(b) && IsStripped(g) && NoCloseBrace(g)
    ensures NoCloseBrace(a + g + b) && Strip(a + g + b) == g
  {
    StripAround(a, g, b);
    PaddedNoCloseBrace(a, g, b);
  }

  /** A well-formed line whose points are no integer is refused with the stripped points text. */
  lemma CriterionPointsRejected(pre: string, gs: seq<string>, post: string)
    requires |gs| == 2 && AllGroups(gs) && AllSpace(pre) && AllSpace(post)
    requires ParseInt(Strip(gs[1])) == None
    ensures ParseCriterionLine(pre + Command("criterion", gs) + post) == Err(BadPoints(Strip(gs[1])))
  {
    MatchComplete(pre, "criterion", gs, post);
  }

  /**
   * Whitespace inside the braces is stripped: padding around the
   * description and around the points changes nothing.
   */
  lemma CriterionWhitespaceStripped(pre: string, a: string, description: string, b: string,
                                    c: string, points: int, d: string, post: string)
    requires AllSpace(pre) && AllSpace(a) && AllSpace(b) && AllSpace(c) && AllSpace(d) && AllSpace(post)
    requires NoCloseBrace(description) && IsStripped(description)
    ensures ParseCriterionLine(pre + Command("criterion", [a + description + b, c + ShowInt(points) + d]) + post)
      == Ok(Criterion(description, points))
  {
    var shown := ShowInt(points);
    ShowIntStripped(points);
    var gs := [a + description + b, c + shown + d];
    assert AllGroups(gs) by {
      PaddedNoCloseBrace(a, description, b);
      PaddedNoCloseBrace(c, shown, d);
    }
    MatchComplete(pre, "criterion", gs, post);
    StripAround(a, description, b);
    StripAround(c, shown, d);
    ParseShowInt(points);
  }

  /** Whitespace holds no `}`, so padding a group keeps it a group. */
  lemma PaddedNoCloseBrace(a: string, g: string, b: string)
    requires AllSpace(a) && AllSpace(b) && NoCloseBrace(g)
    ensures NoCloseBrace(a + g + b)
  {
    var s := a + g + b;
    forall i | 0 <= i < |s| ensures s[i] != '}' {
      if i < |a| {
        assert s[i] == a[i];
      } else if i < |a| + |g| {
        assert s[i] == g[i - |a|];
      } else {
        assert s[i] == b[i - |a| - |g|];
      }
    }
  }

  // ---------------------------------------------------------------------------
  // The criteria list
  // ---------------------------------------------------------------------------

  /**
   * The criteria are accepted exactly when every line is, and then they are
   * the lines' criteria, one per line, in order.
   */
  lemma CriteriaAllOk(lines: seq<string>)
    ensures ParseCriteria(lines).Ok? <==> forall i :: 0 <= i < |lines| ==> ParseCriterionLine(lines[i]).Ok?
    ensures ParseCriteria(lines).Ok? ==>
      forall i :: 0 <= i < |lines| ==> ParseCriteria(lines).value[i] == ParseCriterionLine(lines[i]).value
  {
    CollectCriteriaOk(CriterionLineResults(lines));
  }

  /**
   * A refused criteria list reports the error of its first bad line: every
   * line before it is accepted.
   */
  lemma CriteriaFirstError(lines: seq<string>) returns (k: nat)
    requires ParseCriteria(lines).Err?
    ensures k < |lines| && forall j :: 0 <= j < k ==> ParseCriterionLine(lines[j]).Ok?
    ensures ParseCriterionLine(lines[k]) == Err(ParseCriteria(lines).error)
  {
    k := CollectCriteriaError(CriterionLineResults(lines));
  }

  // ---------------------------------------------------------------------------
  // One course line
  // ---------------------------------------------------------------------------

  /** A courses line is refused as malformed exactly when it is no `\course{..}{..}{..}` invocation. */
  lemma CourseLineRejected(raw: string)
    ensures ParseCourseLine(raw) == Err(BadCourseLine(raw)) <==> !IsInvocation(raw, "course", 3)
  {
    MatchExactly(raw, "course", 3);
  }

  /**
   * A stripped code, any spelling of a difficulty that lower-cases to its
   * value and a stripped topic give that course back; an empty topic is
   * no topic.
   */
  lemma CourseLineRoundTrip(pre: string, code: string, spelling: string, d: Difficulty, topic: string, post: string)
    requires AllSpace(pre) && AllSpace(post)
    requires NoCloseBrace(code) && IsStripped(code)
    requires NoCloseBrace(spelling) && AsciiLower(Strip(spelling)) == DifficultyValue(d)
    requires NoCloseBrace(topic) && IsStripped(topic)
    ensures ParseCourseLine(pre + Command("course", [code, spelling, topic]) + post)
      == Ok((code, CourseAssignment(d, if topic == [] then None else Some(topic))))
  {
    var gs := [code, spelling, topic];
    assert AllGroups(gs);
    CourseLineOfGroups(pre, gs, post);
    StripOfStripped(code);
    StripOfStripped(topic);
    CourseOfValue(code, d, topic);
  }

  /** A well-formed courses line stands for the course its stripped groups name. */
  lemma CourseLineOfGroups(pre: string, gs: seq<string>, post: string)
    requires |gs| == 3 && AllGroups(gs) && AllSpace(pre) && AllSpace(post)
    ensures ParseCourseLine(pre + Command("course", gs) + post)
      == CourseOf(Strip(gs[0]), AsciiLower(Strip(gs[1])), Strip(gs[2]))
  {
    MatchComplete(pre, "course", gs, post);
  }

  lemma CourseOfValue(code: string, d: Difficulty, topic: string)
    ensures CourseOf(code, DifficultyValue(d), topic)
      == Ok((code, CourseAssignment(d, if topic == [] then None else Some(topic))))
  {
    DifficultyValueRoundTrip(d, d);
  }

  /** A well-formed line with an unknown difficulty is refused, naming the lower-cased value and the code. */
  lemma CourseDifficultyRejected(pre: string, gs: seq<string>, post: string)
    requires |gs| == 3 && AllGroups(gs) && AllSpace(pre) && AllSpace(post)
    requires AsciiLower(Strip(gs[1])) !in {"easy", "medium", "hard"}
    ensures ParseCourseLine(pre + Command("course", gs) + post)
      == Err(InvalidDifficulty(AsciiLower(Strip(gs[1])), Strip(gs[0])))
  {
    CourseLineOfGroups(pre, gs, post);
  }

  /** The legacy two-argument form is refused as a malformed line. */
  lemma CourseTwoArgumentLine(code: string, difficulty: string)
    requires NoCloseBrace(code) && NoCloseBrace(difficulty)
    ensures var raw := "\\course{" + code + "}{" + difficulty + "}";
      ParseCourseLine(raw) == Err(BadCourseLine(raw))
  {
    TwoArgumentCourseRejected(code, difficulty);
  }

  // ---------------------------------------------------------------------------
  // The course map
  // ---------------------------------------------------------------------------

  /** The courses are accepted exactly when every line is. */
  lemma CoursesAllOk(lines: seq<string>)
    ensures ParseCourses(lines).Ok? <==> forall i :: 0 <= i < |lines| ==> ParseCourseLine(lines[i]).Ok?
  {
    CollectCoursesOk(CourseLineResults(lines));
  }

  /**
   * A refused course list reports the error of its first bad line: every
   * line before it is accepted.
   */
  lemma CoursesFirstError(lines: seq<string>) returns (k: nat)
    requires ParseCourses(lines).Err?
    ensures k < |lines| && forall j :: 0 <= j < k ==> ParseCourseLine(lines[j]).Ok?
    ensures ParseCourseLine(lines[k]) == Err(ParseCourses(lines).error)
  {
    k := CollectCoursesError(CourseLineResults(lines));
  }

  predicate AllOk(rs: seq<Result<(string, CourseAssignment), ParseError>>) {
    forall i :: 0 <= i < |rs| ==> rs[i].Ok?
  }

  /** No result after the `i`-th names the same code. */
  predicate LastWithCode(rs: seq<Result<(string, CourseAssignment), ParseError>>, i: nat)
    requires AllOk(rs) && i < |rs|
  {
    forall j :: i < j < |rs| ==> rs[j].value.0 != rs[i].value.0
  }

  /** Every code named by a result is a key of `m`. */
  predicate HasAllCodes(rs: seq<Result<(string, CourseAssignment), ParseError>>, m: map<string, CourseAssignment>)
    requires AllOk(rs)
  {
    forall i :: 0 <= i < |rs| ==> rs[i].value.0 in m
  }

  /** Every key of `m` is named by a result. */
  predicate OnlyNamedCodes(rs: seq<Result<(string, CourseAssignment), ParseError>>, m: map<string, CourseAssignment>)
    requires AllOk(rs)
  {
    forall code :: code in m ==> exists i :: 0 <= i < |rs| && rs[i].value.0 == code
  }

  /** Each code holds the assignment of the last result that names it. */
  predicate LastWins(rs: seq<Result<(string, CourseAssignment), ParseError>>, m: map<string, CourseAssignment>)
    requires AllOk(rs) && HasAllCodes(rs, m)
  {
    forall i :: 0 <= i < |rs| && LastWithCode(rs, i) ==> m[rs[i].value.0] == rs[i].value.1
  }

  /**
   * Collecting successful results gives a map whose keys are the codes
   * named, each holding the assignment of the last result that names it.
   */
  lemma {:induction false} CollectCoursesLastWins(rs: seq<Result<(string, CourseAssignment), ParseError>>)
    requires AllOk(rs)
    ensures CollectCourses(rs).Ok?
    ensures HasAllCodes(rs, CollectCourses(rs).value)
    ensures OnlyNamedCodes(rs, CollectCourses(rs).value)
    ensures LastWins(rs, CollectCourses(rs).value)
  {
    if rs != [] {
      var pre := rs[..|rs| - 1];
      assert AllOk(pre) by {
        forall i | 0 <= i < |pre| ensures pre[i].Ok? {
          assert pre[i] == rs[i];
        }
      }
      CollectCoursesLastWins(pre);
      var m := CollectCourses(pre).value;
      var entry := rs[|rs| - 1].value;
      assert CollectCourses(rs) == Ok(m[entry.0 := entry.1]);
      HasAllCodesStep(rs, pre, m);
      OnlyNamedCodesStep(rs, pre, m);
      LastWinsStep(rs, pre, m);
    }
  }

  lemma HasAllCodesStep(rs: seq<Result<(string, CourseAssignment), ParseError>>,
                        pre: seq<Result<(string, CourseAssignment), ParseError>>,
                        m: map<string, CourseAssignment>)
    requires rs != [] && pre == rs[..|rs| - 1] && AllOk(rs) && AllOk(pre) && HasAllCodes(pre, m)
    ensures HasAllCodes(rs, m[rs[|rs| - 1].value.0 := rs[|rs| - 1].value.1])
  {
    var entry := rs[|rs| - 1].value;
    forall i | 0 <= i < |rs| ensures rs[i].value.0 in m[entry.0 := entry.1] {
      if i < |pre| { assert pre[i] == rs[i]; }
    }
  }

  lemma OnlyNamedCodesStep(rs: seq<Result<(string, CourseAssignment), ParseError>>,
                           pre: seq<Result<(string, CourseAssignment), ParseError>>,
                           m: map<string, CourseAssignment>)
    requires rs != [] && pre == rs[..|rs| - 1] && AllOk(rs) && AllOk(pre) && OnlyNamedCodes(pre, m)
    ensures OnlyNamedCodes(rs, m[rs[|rs| - 1].value.0 := rs[|rs| - 1].value.1])
  {
    var entry := rs[|rs| - 1].value;
    var m' := m[entry.0 := entry.1];
    forall code | code in m' ensures exists i :: 0 <= i < |rs| && rs[i].value.0 == code {
      if code != entry.0 {
        var i :| 0 <= i < |pre| && pre[i].value.0 == code;
        assert rs[i] == pre[i];
      } else {
        assert rs[|rs| - 1].value.0 == code;
      }
    }
  }

  lemma LastWinsStep(rs: seq<Result<(string, CourseAssignment), ParseError>>,
                     pre: seq<Result<(string, CourseAssignment), ParseError>>,
                     m: map<string, CourseAssignment>)
    requires rs != [] && pre == rs[..|rs| - 1] && AllOk(rs) && AllOk(pre)
    requires HasAllCodes(pre, m) && LastWins(pre, m)
    requires HasAllCodes(rs, m[rs[|rs| - 1].value.0 := rs[|rs| - 1].value.1])
    ensures LastWins(rs, m[rs[|rs| - 1].value.0 := rs[|rs| - 1].value.1])
  {
    var last := |rs| - 1;
    var entry := rs[last].value;
    forall i | 0 <= i < |rs| && LastWithCode(rs, i) ensures m[entry.0 := entry.1][rs[i].value.0] == rs[i].value.1 {
      if i < last {
        assert rs[i] == pre[i];
        assert rs[last].value.0 != rs[i].value.0;
        assert LastWithCode(pre, i) by {
          forall j | i < j < |pre| ensures pre[j].value.0 != pre[i].value.0 {
            assert pre[j] == rs[j];
          }
        }
      }
    }
  }

  /** The code a courses line names. */
  function CodeOf(line: string): string
    requires ParseCourseLine(line).Ok?
  {
    ParseCourseLine(line).value.0
  }

  /** With every line accepted, the keys of the course map are exactly the codes the lines name. */
  lemma CoursesKeys(lines: seq<string>)
    requires forall i :: 0 <= i < |lines| ==> ParseCourseLine(lines[i]).Ok?
    ensures ParseCourses(lines).Ok?
    ensures forall i :: 0 <= i < |lines| ==> CodeOf(lines[i]) in ParseCourses(lines).value
    ensures forall code :: code in ParseCourses(lines).value ==>
      exists i :: 0 <= i < |lines| && CodeOf(lines[i]) == code
  {
    var rs := CourseLineResults(lines);
    CollectCoursesLastWins(rs);
    var m := ParseCourses(lines).value;
    assert HasAllCodes(rs, m) && OnlyNamedCodes(rs, m);
    forall i | 0 <= i < |lines| ensures CodeOf(lines[i]) in m {
      assert rs[i].value.0 in m;
    }
    forall code | code in m ensures exists i :: 0 <= i < |lines| && CodeOf(lines[i]) == code {
      var i :| 0 <= i < |rs| && rs[i].value.0 == code;
      assert CodeOf(lines[i]) == code;
    }
  }

  /** No line after line `i` names the code line `i` names. */
  predicate LastLineWithCode(lines: seq<string>, i: nat)
    requires i < |lines| && forall j :: 0 <= j < |lines| ==> ParseCourseLine(lines[j]).Ok?
  {
    forall j :: i < j < |lines| ==> CodeOf(lines[j]) != CodeOf(lines[i])
  }

  /** With every line accepted, a code named more than once gets the assignment of its last line. */
  lemma CoursesLastWins(lines: seq<string>)
    requires forall i :: 0 <= i < |lines| ==> ParseCourseLine(lines[i]).Ok?
    ensures ParseCourses(lines).Ok?
    ensures forall i :: 0 <= i < |lines| && LastLineWithCode(lines, i) ==>
      CodeOf(lines[i]) in ParseCourses(lines).value &&
      ParseCourses(lines).value[CodeOf(lines[i])] == ParseCourseLine(lines[i]).value.1
  {
    var rs := CourseLineResults(lines);
    CollectCoursesLastWins(rs);
    var m := ParseCourses(lines).value;
    assert HasAllCodes(rs, m) && LastWins(rs, m);
    forall i | 0 <= i < |lines| && LastLineWithCode(lines, i)
      ensures CodeOf(lines[i]) in m && m[CodeOf(lines[i])] == ParseCourseLine(lines[i]).value.1
    {
      assert LastWithCode(rs, i) by {
        forall j | i < j < |rs| ensures rs[j].value.0 != rs[i].value.0 {
          assert CodeOf(lines[j]) != CodeOf(lines[i]);
        }
      }
    }
  }

  /** Of two lines naming the same code, the second decides its difficulty and topic. */
  lemma DuplicateCodeLastWins(first: string, second: string)
    requires ParseCourseLine(first).Ok? && ParseCourseLine(second).Ok?
    requires ParseCourseLine(first).value.0 == ParseCourseLine(second).value.0
    ensures ParseCourses([first, second]) == Ok(map[ParseCourseLine(second).value.0 := ParseCourseLine(second).value.1])
  {
    CollectSameCodeTwice(CourseLineResults([first, second]));
  }

  lemma CollectSameCodeTwice(rs: seq<Result<(string, CourseAssignment), ParseError>>)
    requires |rs| == 2 && rs[0].Ok? && rs[1].Ok? && rs[0].value.0 == rs[1].value.0
    ensures CollectCourses(rs) == Ok(map[rs[1].value.0 := rs[1].value.1])
  {
    assert rs[..1][..0] == [];
    var e1, e2 := rs[0].value, rs[1].value;
    assert CollectCourses(rs[..1]) == Ok(map[][e1.0 := e1.1]);
    assert map[][e1.0 := e1.1][e2.0 := e2.1] == map[e2.0 := e2.1];
  }

  // ---------------------------------------------------------------------------
  // The checks after the scan
  // ---------------------------------------------------------------------------

  /**
   * The checks fail fast in the parser's order: an empty body is reported
   * whatever else is wrong, then the first bad criteria line, then the
   * first bad courses line.
   */
  lemma ErrorOrder(body: seq<string>, solution: seq<string>, criteria: seq<string>, courses: seq<string>)
    ensures AllSpace(JoinLines(body)) ==> FromSections(body, solution, criteria, courses) == Err(EmptyBody)
    ensures !AllSpace(JoinLines(body)) && ParseCriteria(criteria).Err? ==>
      FromSections(body, solution, criteria, courses) == Err(ParseCriteria(criteria).error)
    ensures !AllSpace(JoinLines(body)) && ParseCriteria(criteria).Ok? && ParseCourses(courses).Err? ==>
      FromSections(body, solution, criteria, courses) == Err(ParseCourses(courses).error)
  {
  }

  /**
   * On success every field is what its section yields: the stripped body,
   * the criteria and courses of their lines, and the solution text.
   */
  lemma SectionsAccepted(body: seq<string>, solution: seq<string>, criteria: seq<string>, courses: seq<string>)
    requires FromSections(body, solution, criteria, courses).Ok?
    ensures var t := FromSections(body, solution, criteria, courses).value;
      && t.body == Strip(JoinLines(body))
      && Ok(t.criteria) == ParseCriteria(criteria)
      && Ok(t.courses) == ParseCourses(courses)
      && t.solution == SolutionText(solution)
  {
  }

  /**
   * The solution is none exactly when its kept lines are none; otherwise it
   * is those lines joined, which stripping leaves unchanged.
   */
  lemma SolutionOfKeptLines(lines: seq<string>)
    requires forall i :: 0 <= i < |lines| ==> IsContentLine(lines[i])
    ensures SolutionText(lines) == if lines == [] then None else Some(JoinLines(lines))
  {
    JoinOfStripped(lines);
    StripOfStripped(JoinLines(lines));
  }
}
