/**
 * The edited-template parser. A saved template is read line by line by a
 * five-state scanner driven by `% @@BEGIN_X` / `% @@END_X` marker lines,
 * which fills four buffers (body, solution, criteria, courses); the buffers
 * are then checked and turned into item fields, failing on the first error.
 *
 * Each loop of the parser is a method proved equal to a specification
 * function; the properties of the parser are proved about those functions.
 */
module Editor {
  import opened Wrappers
  import opened Text
  import opened Models
  import opened Matchers

  /** Where the scanner is: outside every section, or inside one of the four. */
  datatype Section = Outside | InBody | InSolution | InCriteria | InCourses

  /** Why an edited template is refused; each error carries the line or value it names. */
  datatype ParseError =
    | EmptyBody
    | BadCriterionLine(line: string)
    | BadPoints(value: string)
    | BadCourseLine(line: string)
    | InvalidDifficulty(value: string, code: string)

  /** The item fields read from a template. */
  datatype ParsedTemplate = ParsedTemplate(
    body: string,
    criteria: seq<Criterion> := [],
    solution: Option<string> := None,
    courses: map<string, CourseAssignment> := map[])

  // ---------------------------------------------------------------------------
  // Marker lines
  // ---------------------------------------------------------------------------

  /** The marker that opens a section. */
  function BeginMarker(sec: Section): string
    requires sec != Outside
  {
    match sec
    case InBody => "% @@BEGIN_BODY"
    case InSolution => "% @@BEGIN_SOLUTION"
    case InCriteria => "% @@BEGIN_CRITERIA"
    case InCourses => "% @@BEGIN_COURSES"
  }

  /** The marker that closes a section. */
  function EndMarker(sec: Section): string
    requires sec != Outside
  {
    match sec
    case InBody => "% @@END_BODY"
    case InSolution => "% @@END_SOLUTION"
    case InCriteria => "% @@END_CRITERIA"
    case InCourses => "% @@END_COURSES"
  }

  /** The state a stripped marker line switches to; None when the line is no marker. */
  function MarkerTarget(stripped: string): Option<Section> {
    if stripped == "% @@BEGIN_BODY" then Some(InBody)
    else if stripped == "% @@END_BODY" then Some(Outside)
    else if stripped == "% @@BEGIN_SOLUTION" then Some(InSolution)
    else if stripped == "% @@END_SOLUTION" then Some(Outside)
    else if stripped == "% @@BEGIN_CRITERIA" then Some(InCriteria)
    else if stripped == "% @@END_CRITERIA" then Some(Outside)
    else if stripped == "% @@BEGIN_COURSES" then Some(InCourses)
    else if stripped == "% @@END_COURSES" then Some(Outside)
    else None
  }

  /**
   * The eight markers are exactly the begin and end markers of the four
   * sections: a begin marker enters its section, every end marker leaves to
   * the outside, whichever section is open.
   */
  lemma MarkerTargets(sec: Section, stripped: string)
    requires sec != Outside
    ensures MarkerTarget(BeginMarker(sec)) == Some(sec)
    ensures MarkerTarget(EndMarker(sec)) == Some(Outside)
    ensures MarkerTarget(stripped).Some? <==>
      exists s :: s != Outside && (stripped == BeginMarker(s) || stripped == EndMarker(s))
  {
    if MarkerTarget(stripped).Some? {
      var s :=
        if stripped in {"% @@BEGIN_BODY", "% @@END_BODY"} then InBody
        else if stripped in {"% @@BEGIN_SOLUTION", "% @@END_SOLUTION"} then InSolution
        else if stripped in {"% @@BEGIN_CRITERIA", "% @@END_CRITERIA"} then InCriteria
        else InCourses;
      assert stripped == BeginMarker(s) || stripped == EndMarker(s);
    }
  }

  /** A stripped line that is neither blank nor a `%` comment. */
  predicate IsContentLine(s: string) {
    s != [] && IsStripped(s) && s[0] != '%'
  }

  // ---------------------------------------------------------------------------
  // The scanner, specified
  // ---------------------------------------------------------------------------

  /** One line as the scanner reads it: a marker, or text together with its stripped form. */
  datatype ScannedLine = Marker(target: Section) | Text(line: string, stripped: string)

  /** Reading one line: its stripped form decides whether it is a marker. */
  function Classify(line: string): ScannedLine {
    var stripped := Strip(line);
    match MarkerTarget(stripped)
    case Some(target) => Marker(target)
    case None => Text(line, stripped)
  }

  /** Reading every line. */
  function ClassifyAll(lines: seq<string>): (scanned: seq<ScannedLine>)
    ensures |scanned| == |lines|
    ensures forall i :: 0 <= i < |lines| ==> scanned[i] == Classify(lines[i])
  {
    seq(|lines|, i requires 0 <= i < |lines| => Classify(lines[i]))
  }

  /** No line of `c` is a marker. */
  predicate MarkerFree(c: seq<string>) {
    forall i :: 0 <= i < |c| ==> Classify(c[i]).Text?
  }

  /** What a text line adds to the buffer of the section it is read in. */
  function Kept(sec: Section, t: ScannedLine): seq<string>
    requires t.Text?
  {
    match sec
    case Outside => []
    case InBody => [t.line]
    case _ => if t.stripped != [] && t.stripped[0] != '%' then [t.stripped] else []
  }

  /** The state after one line. */
  function Step(state: Section, t: ScannedLine): Section {
    if t.Marker? then t.target else state
  }

  /** The state after reading `scanned` from the start. */
  function SectionAfter(scanned: seq<ScannedLine>): Section {
    if scanned == [] then Outside
    else Step(SectionAfter(scanned[..|scanned| - 1]), scanned[|scanned| - 1])
  }

  /**
   * The buffer of section `sec` after reading `scanned`: at most one line
   * per line read, and nothing at all outside every section.
   */
  function Captured(scanned: seq<ScannedLine>, sec: Section): (buffer: seq<string>)
    ensures |buffer| <= |scanned|
    ensures sec == Outside ==> buffer == []
  {
    if scanned == [] then []
    else
      var pre := scanned[..|scanned| - 1];
      var t := scanned[|scanned| - 1];
      var more := if t.Text? && SectionAfter(pre) == sec then Kept(sec, t) else [];
      Captured(pre, sec) + more
  }

  /** What section `sec` keeps from the text lines of `c`, all read inside it. */
  function KeptAll(sec: Section, c: seq<ScannedLine>): seq<string>
    requires forall i :: 0 <= i < |c| ==> c[i].Text?
  {
    if c == [] then [] else KeptAll(sec, c[..|c| - 1]) + Kept(sec, c[|c| - 1])
  }

  /**
   * What a buffer may hold: body lines are anything but markers; the other
   * buffers hold stripped, non-blank, non-comment lines; outside keeps nothing.
   */
  predicate BufferShape(sec: Section, kept: seq<string>) {
    && (sec == Outside ==> kept == [])
    && (sec == InBody ==> MarkerFree(kept))
    && (sec != InBody ==> forall i :: 0 <= i < |kept| ==> IsContentLine(kept[i]))
  }

  /** Every buffer of the scan of some lines has its shape. */
  lemma {:induction false} CapturedShape(lines: seq<string>, sec: Section)
    ensures BufferShape(sec, Captured(ClassifyAll(lines), sec))
  {
    if lines != [] {
      var pre := lines[..|lines| - 1];
      var line := lines[|lines| - 1];
      CapturedShape(pre, sec);
      assert ClassifyAll(lines)[..|lines| - 1] == ClassifyAll(pre);
      if Classify(line).Text? {
        KeptShape(sec, line, Captured(ClassifyAll(pre), sec));
      }
    }
  }

  /** Adding what a text line keeps preserves the shape of a buffer. */
  lemma KeptShape(sec: Section, line: string, prev: seq<string>)
    requires BufferShape(sec, prev) && Classify(line).Text?
    ensures BufferShape(sec, prev + Kept(sec, Classify(line)))
    ensures |Kept(sec, Classify(line))| <= 1
  {
    var t := Classify(line);
    var next := prev + Kept(sec, t);
    if sec == InBody {
      assert next == prev + [line];
      forall i | 0 <= i < |next| ensures Classify(next[i]).Text? {
        if i < |prev| { assert next[i] == prev[i]; }
      }
    } else if sec != Outside {
      var stripped := Strip(line);
      assert t.stripped == stripped;
      forall i | 0 <= i < |next| ensures IsContentLine(next[i]) {
        if i < |prev| { assert next[i] == prev[i]; } else { assert next[i] == stripped; }
      }
    }
  }

  // ---------------------------------------------------------------------------
  // The scanner, as the loop the parser runs
  // ---------------------------------------------------------------------------

  /** Reading one more line: the state steps, and only the open section's buffer can grow. */
  lemma ScanStep(scanned: seq<ScannedLine>, i: nat)
    requires i < |scanned|
    ensures SectionAfter(scanned[..i + 1]) == Step(SectionAfter(scanned[..i]), scanned[i])
    ensures forall sec ::
      Captured(scanned[..i + 1], sec) == Captured(scanned[..i], sec) +
        (if scanned[i].Text? && SectionAfter(scanned[..i]) == sec then Kept(sec, scanned[i]) else [])
  {
    assert scanned[..i + 1][..i] == scanned[..i];
  }

  /** The line loop of the parser: one pass that fills the four buffers. */
  method ScanSections(lines: seq<string>)
    returns (body: seq<string>, solution: seq<string>, criteria: seq<string>, courses: seq<string>)
    ensures body == Captured(ClassifyAll(lines), InBody)
    ensures solution == Captured(ClassifyAll(lines), InSolution)
    ensures criteria == Captured(ClassifyAll(lines), InCriteria)
    ensures courses == Captured(ClassifyAll(lines), InCourses)
  {
    ghost var scanned := ClassifyAll(lines);
    var state := Outside;
    body, solution, criteria, courses := [], [], [], [];
    for i := 0 to |lines|
      invariant state == SectionAfter(scanned[..i])
      invariant body == Captured(scanned[..i], InBody)
      invariant solution == Captured(scanned[..i], InSolution)
      invariant criteria == Captured(scanned[..i], InCriteria)
      invariant courses == Captured(scanned[..i], InCourses)
    {
      var line := lines[i];
      var stripped := Strip(line);
      ScanStep(scanned, i);
      if stripped == "% @@BEGIN_BODY" {
        state := InBody;
      } else if stripped == "% @@END_BODY" {
        state := Outside;
      } else if stripped == "% @@BEGIN_SOLUTION" {
        state := InSolution;
      } else if stripped == "% @@END_SOLUTION" {
        state := Outside;
      } else if stripped == "% @@BEGIN_CRITERIA" {
        state := InCriteria;
      } else if stripped == "% @@END_CRITERIA" {
        state := Outside;
      } else if stripped == "% @@BEGIN_COURSES" {
        state := InCourses;
      } else if stripped == "% @@END_COURSES" {
        state := Outside;
      } else if state == InBody {
        body := body + [line];
      } else if state == InSolution {
        if stripped != [] && stripped[0] != '%' {
          solution := solution + [stripped];
        }
      } else if state == InCriteria {
        if stripped != [] && stripped[0] != '%' {
          criteria := criteria + [stripped];
        }
      } else if state == InCourses {
        if stripped != [] && stripped[0] != '%' {
          courses := courses + [stripped];
        }
      }
    }
    assert scanned[..|lines|] == scanned;
  }

  // ---------------------------------------------------------------------------
  // Criteria
  // ---------------------------------------------------------------------------

  /**
   * One kept criteria line: `\criterion{description}{points}` with integer
   * points. A line of another shape is refused as itself; a line of this
   * shape only for its points, which are reported stripped.
   */
  function ParseCriterionLine(raw: string): (r: Result<Criterion, ParseError>)
    ensures r == Err(BadCriterionLine(raw)) <==> MatchCriterion(raw).None?
    ensures r.Err? ==> r.error == BadCriterionLine(raw) || (r.error.BadPoints? && IsStripped(r.error.value))
    ensures r.Ok? ==> IsStripped(r.value.description)
  {
    match MatchCriterion(raw)
    case None => Err(BadCriterionLine(raw))
    case Some(gs) =>
      var points := Strip(gs[1]);
      match ParseInt(points)
      case None => Err(BadPoints(points))
      case Some(p) => Ok(Criterion(Strip(gs[0]), p))
  }

  /** What each kept criteria line reads as. */
  function CriterionLineResults(lines: seq<string>): (rs: seq<Result<Criterion, ParseError>>)
    ensures |rs| == |lines|
    ensures forall i :: 0 <= i < |lines| ==> rs[i] == ParseCriterionLine(lines[i])
  {
    seq(|lines|, i requires 0 <= i < |lines| => ParseCriterionLine(lines[i]))
  }

  /** The criteria of the line results, in order, or the first error among them. */
  function CollectCriteria(rs: seq<Result<Criterion, ParseError>>): (r: Result<seq<Criterion>, ParseError>)
    ensures r.Ok? ==> |r.value| == |rs|
  {
    if rs == [] then Ok([])
    else
      match CollectCriteria(rs[..|rs| - 1])
      case Err(e) => Err(e)
      case Ok(criteria) =>
        match rs[|rs| - 1]
        case Err(e) => Err(e)
        case Ok(c) => Ok(criteria + [c])
  }

  /** The criteria of the kept lines, in order, or the error of the first bad line. */
  function ParseCriteria(lines: seq<string>): Result<seq<Criterion>, ParseError> {
    CollectCriteria(CriterionLineResults(lines))
  }

  /** A failed collection reports the error of one of its line results. */
  lemma {:induction false} CollectCriteriaError(rs: seq<Result<Criterion, ParseError>>) returns (k: nat)
    requires CollectCriteria(rs).Err?
    ensures k < |rs| && rs[k] == Err(CollectCriteria(rs).error)
    ensures forall j :: 0 <= j < k ==> rs[j].Ok?
  {
    var pre := rs[..|rs| - 1];
    if CollectCriteria(pre).Err? {
      k := CollectCriteriaError(pre);
    } else {
      k := |rs| - 1;
      CollectCriteriaOk(pre);
    }
  }

  /** A successful collection had only successful line results, and holds their values in order. */
  lemma {:induction false} CollectCriteriaOk(rs: seq<Result<Criterion, ParseError>>)
    ensures CollectCriteria(rs).Ok? <==> forall i :: 0 <= i < |rs| ==> rs[i].Ok?
    ensures CollectCriteria(rs).Ok? ==> forall i :: 0 <= i < |rs| ==> CollectCriteria(rs).value[i] == rs[i].value
  {
    if rs != [] {
      var pre := rs[..|rs| - 1];
      CollectCriteriaOk(pre);
      assert forall i :: 0 <= i < |pre| ==> rs[i] == pre[i];
    }
  }

  /** Once a prefix has failed, the whole list fails the same way. */
  lemma {:induction false} CriteriaErrorSticks(rs: seq<Result<Criterion, ParseError>>, i: nat)
    requires i <= |rs| && CollectCriteria(rs[..i]).Err?
    ensures CollectCriteria(rs) == CollectCriteria(rs[..i])
    decreases |rs| - i
  {
    if i < |rs| {
      assert rs[..i + 1][..i] == rs[..i];
      CriteriaErrorSticks(rs, i + 1);
    } else {
      assert rs[..i] == rs;
    }
  }

  /** The criteria can only fail on a line that does not match or on points that are no integer. */
  lemma CriteriaErrorKinds(lines: seq<string>)
    ensures ParseCriteria(lines).Err? ==>
      ParseCriteria(lines).error.BadCriterionLine? || ParseCriteria(lines).error.BadPoints?
  {
    if ParseCriteria(lines).Err? {
      var k := CollectCriteriaError(CriterionLineResults(lines));
    }
  }

  /** Collecting one more line result: it is appended, or its error ends the whole collection. */
  lemma CollectCriteriaStep(rs: seq<Result<Criterion, ParseError>>, i: nat, criteria: seq<Criterion>,
                            c: Result<Criterion, ParseError>)
    requires i < |rs| && CollectCriteria(rs[..i]) == Ok(criteria) && c == rs[i]
    ensures c.Ok? ==> CollectCriteria(rs[..i + 1]) == Ok(criteria + [c.value])
    ensures c.Err? ==> CollectCriteria(rs) == Err(c.error)
  {
    assert rs[..i + 1][..i] == rs[..i];
    if c.Err? {
      CriteriaErrorSticks(rs, i + 1);
    }
  }

  /** The criteria loop of the parser. */
  method BuildCriteria(lines: seq<string>) returns (r: Result<seq<Criterion>, ParseError>)
    ensures r == ParseCriteria(lines)
  {
    ghost var rs := CriterionLineResults(lines);
    var criteria: seq<Criterion> := [];
    for i := 0 to |lines|
      invariant CollectCriteria(rs[..i]) == Ok(criteria)
    {
      var c := ParseCriterionLine(lines[i]);
      CollectCriteriaStep(rs, i, criteria, c);
      if c.Err? {
        return Err(c.error);
      }
      criteria := criteria + [c.value];
    }
    assert rs[..|lines|] == rs;
    return Ok(criteria);
  }

  // ---------------------------------------------------------------------------
  // Courses
  // ---------------------------------------------------------------------------

  /**
   * The course assignment a code, a lower-cased difficulty and a topic text
   * stand for: accepted exactly for a known difficulty, which it keeps, with
   * an empty topic stored as absent.
   */
  function CourseOf(code: string, difficulty: string, topic: string): (r: Result<(string, CourseAssignment), ParseError>)
    ensures r.Ok? <==> difficulty in {"easy", "medium", "hard"}
    ensures r.Err? ==> r.error == InvalidDifficulty(difficulty, code)
    ensures r.Ok? ==> r.value.0 == code && DifficultyValue(r.value.1.difficulty) == difficulty
    ensures r.Ok? ==> r.value.1.topic == (if topic == [] then None else Some(topic))
  {
    match DifficultyFromValue(difficulty)
    case None => Err(InvalidDifficulty(difficulty, code))
    case Some(d) => Ok((code, CourseAssignment(d, if topic == [] then None else Some(topic))))
  }

  /**
   * One kept courses line: `\course{code}{difficulty}{topic}` with a known
   * difficulty. A line of another shape is refused as itself; a line of this
   * shape only for its difficulty.
   */
  function ParseCourseLine(raw: string): (r: Result<(string, CourseAssignment), ParseError>)
    ensures r == Err(BadCourseLine(raw)) <==> MatchCourse(raw).None?
    ensures r.Err? ==> r.error == BadCourseLine(raw) || r.error.InvalidDifficulty?
    ensures r.Ok? ==> IsStripped(r.value.0)
    ensures r.Ok? && r.value.1.topic.Some? ==> r.value.1.topic.value != [] && IsStripped(r.value.1.topic.value)
  {
    match MatchCourse(raw)
    case None => Err(BadCourseLine(raw))
    case Some(gs) => CourseOf(Strip(gs[0]), AsciiLower(Strip(gs[1])), Strip(gs[2]))
  }

  /** What each kept courses line reads as. */
  function CourseLineResults(lines: seq<string>): (rs: seq<Result<(string, CourseAssignment), ParseError>>)
    ensures |rs| == |lines|
    ensures forall i :: 0 <= i < |lines| ==> rs[i] == ParseCourseLine(lines[i])
  {
    seq(|lines|, i requires 0 <= i < |lines| => ParseCourseLine(lines[i]))
  }

  /** The course map of the line results, a later code overwriting an earlier one, or the first error. */
  function CollectCourses(rs: seq<Result<(string, CourseAssignment), ParseError>>)
    : Result<map<string, CourseAssignment>, ParseError>
  {
    if rs == [] then Ok(map[])
    else
      match CollectCourses(rs[..|rs| - 1])
      case Err(e) => Err(e)
      case Ok(courses) =>
        match rs[|rs| - 1]
        case Err(e) => Err(e)
        case Ok(entry) => Ok(courses[entry.0 := entry.1])
  }

  /** The course map of the kept lines, or the error of the first bad line. */
  function ParseCourses(lines: seq<string>): Result<map<string, CourseAssignment>, ParseError> {
    CollectCourses(CourseLineResults(lines))
  }

  /** A failed collection reports the error of one of its line results. */
  lemma {:induction false} CollectCoursesError(rs: seq<Result<(string, CourseAssignment), ParseError>>) returns (k: nat)
    requires CollectCourses(rs).Err?
    ensures k < |rs| && rs[k] == Err(CollectCourses(rs).error)
    ensures forall j :: 0 <= j < k ==> rs[j].Ok?
  {
    var pre := rs[..|rs| - 1];
    if CollectCourses(pre).Err? {
      k := CollectCoursesError(pre);
    } else {
      k := |rs| - 1;
      CollectCoursesOk(pre);
    }
  }

  /** A collection succeeds exactly when every line result does. */
  lemma {:induction false} CollectCoursesOk(rs: seq<Result<(string, CourseAssignment), ParseError>>)
    ensures CollectCourses(rs).Ok? <==> forall i :: 0 <= i < |rs| ==> rs[i].Ok?
  {
    if rs != [] {
      var pre := rs[..|rs| - 1];
      CollectCoursesOk(pre);
      assert forall i :: 0 <= i < |pre| ==> rs[i] == pre[i];
    }
  }

  /** Once a prefix has failed, the whole list fails the same way. */
  lemma {:induction false} CoursesErrorSticks(rs: seq<Result<(string, CourseAssignment), ParseError>>, i: nat)
    requires i <= |rs| && CollectCourses(rs[..i]).Err?
    ensures CollectCourses(rs) == CollectCourses(rs[..i])
    decreases |rs| - i
  {
    if i < |rs| {
      assert rs[..i + 1][..i] == rs[..i];
      CoursesErrorSticks(rs, i + 1);
    } else {
      assert rs[..i] == rs;
    }
  }

  /** The courses can only fail on a line that does not match or on an unknown difficulty. */
  lemma CoursesErrorKinds(lines: seq<string>)
    ensures ParseCourses(lines).Err? ==>
      ParseCourses(lines).error.BadCourseLine? || ParseCourses(lines).error.InvalidDifficulty?
  {
    if ParseCourses(lines).Err? {
      var k := CollectCoursesError(CourseLineResults(lines));
    }
  }

  /** The courses loop of the parser. */
  method BuildCourses(lines: seq<string>) returns (r: Result<map<string, CourseAssignment>, ParseError>)
    ensures r == ParseCourses(lines)
  {
    ghost var rs := CourseLineResults(lines);
    var courses: map<string, CourseAssignment> := map[];
    for i := 0 to |lines|
      invariant CollectCourses(rs[..i]) == Ok(courses)
    {
      assert rs[..i + 1][..i] == rs[..i];
      var entry := ParseCourseLine(lines[i]);
      if entry.Err? {
        CoursesErrorSticks(rs, i + 1);
        return Err(entry.error);
      }
      var (code, assignment) := entry.value;
      courses := courses[code := assignment];
    }
    assert rs[..|lines|] == rs;
    return Ok(courses);
  }

  // ---------------------------------------------------------------------------
  // The whole parser
  // ---------------------------------------------------------------------------

  /** The solution field: the stripped join of the kept lines, or None when that is empty. */
  function SolutionText(lines: seq<string>): (r: Option<string>)
    ensures r.None? <==> AllSpace(JoinLines(lines))
    ensures r.Some? ==> r.value != [] && IsStripped(r.value)
  {
    var text := Strip(JoinLines(lines));
    if text == [] then None else Some(text)
  }

  /**
   * The checks after the scan, in the parser's order: the body first, then
   * the criteria, then the courses; the solution never fails.
   */
  function FromSections(body: seq<string>, solution: seq<string>, criteria: seq<string>, courses: seq<string>)
    : (r: Result<ParsedTemplate, ParseError>)
    ensures r == Err(EmptyBody) <==> AllSpace(JoinLines(body))
    ensures r.Ok? ==> IsStripped(r.value.body) && r.value.body != [] && r.value.body == Strip(JoinLines(body))
    ensures r.Ok? <==> !AllSpace(JoinLines(body)) && ParseCriteria(criteria).Ok? && ParseCourses(courses).Ok?
  {
    var text := Strip(JoinLines(body));
    CriteriaErrorKinds(criteria);
    CoursesErrorKinds(courses);
    if text == [] then Err(EmptyBody)
    else
      match ParseCriteria(criteria)
      case Err(e) => Err(e)
      case Ok(cs) =>
        match ParseCourses(courses)
        case Err(e) => Err(e)
        case Ok(m) => Ok(ParsedTemplate(text, cs, SolutionText(solution), m))
  }

  /**
   * `parse_template`: scan the lines of `content`, then check the four
   * buffers. An accepted template has a non-empty stripped body and, when
   * there is a solution, a non-empty stripped one.
   */
  function TemplateSpec(content: string): (r: Result<ParsedTemplate, ParseError>)
    ensures r.Ok? ==> r.value.body != [] && IsStripped(r.value.body)
    ensures r.Ok? && r.value.solution.Some? ==> r.value.solution.value != [] && IsStripped(r.value.solution.value)
  {
    var scanned := ClassifyAll(SplitLines(content));
    FromSections(
      Captured(scanned, InBody), Captured(scanned, InSolution),
      Captured(scanned, InCriteria), Captured(scanned, InCourses))
  }

  /** The parser as it runs: one scan, then the body, solution, criteria and courses checks. */
  method ParseTemplate(content: string) returns (r: Result<ParsedTemplate, ParseError>)
    ensures r == TemplateSpec(content)
  {
    var bodyLines, solutionLines, criteriaLines, coursesLines := ScanSections(SplitLines(content));
    var body := Strip(JoinLines(bodyLines));
    if body == [] {
      return Err(EmptyBody);
    }
    var solutionText := Strip(JoinLines(solutionLines));
    var solution := if solutionText == [] then None else Some(solutionText);
    var criteria := BuildCriteria(criteriaLines);
    if criteria.Err? {
      return Err(criteria.error);
    }
    var courses := BuildCourses(coursesLines);
    if courses.Err? {
      return Err(courses.error);
    }
    return Ok(ParsedTemplate(body, criteria.value, solution, courses.value));
  }
}
