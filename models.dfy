/**
 * The record types of an exam item: its difficulty levels, grading criteria,
 * course assignments and the item itself, with the defaults the records give
 * to fields that are not supplied.
 */
module Models {
  import opened Wrappers

  /** How hard an item is for one course. */
  datatype Difficulty = Easy | Medium | Hard

  /** The stored (lower-case) value of each difficulty. */
  function DifficultyValue(d: Difficulty): string {
    match d
    case Easy => "easy"
    case Medium => "medium"
    case Hard => "hard"
  }

  /** Building a difficulty from its value: the three values are accepted, anything else is rejected. */
  function DifficultyFromValue(s: string): (r: Option<Difficulty>)
    ensures r.Some? <==> s in {"easy", "medium", "hard"}
    ensures r.Some? ==> DifficultyValue(r.value) == s
  {
    if s == "easy" then Some(Easy)
    else if s == "medium" then Some(Medium)
    else if s == "hard" then Some(Hard)
    else None
  }

  /** The value of a difficulty builds that difficulty back, so no two share a value. */
  lemma DifficultyValueRoundTrip(d: Difficulty, e: Difficulty)
    ensures DifficultyFromValue(DifficultyValue(d)) == Some(d)
    ensures DifficultyValue(d) == DifficultyValue(e) ==> d == e
  {
  }

  /** One grading rubric line; points may be any integer. */
  datatype Criterion = Criterion(description: string, points: int)

  /** How an item applies to one course. */
  datatype CourseAssignment = CourseAssignment(difficulty: Difficulty, topic: Option<string> := None)

  /** An exam item; the fields after `points` default to empty or absent. */
  datatype Item = Item(
    id: string,
    body: string,
    points: int,
    courses: map<string, CourseAssignment> := map[],
    criteria: seq<Criterion> := [],
    solution: Option<string> := None)

  predicate IsLowerHexDigit(c: char) {
    '0' <= c <= '9' || 'a' <= c <= 'f'
  }

  /** The `hex` form of a UUID: 32 lower-case hexadecimal digits. */
  predicate IsUuidHex(s: string) {
    |s| == 32 && forall i :: 0 <= i < |s| ==> IsLowerHexDigit(s[i])
  }

  /** The id an item gets when none is supplied: the first 8 hex digits of a fresh UUID. */
  function GeneratedId(uuidHex: string): (id: string)
    requires IsUuidHex(uuidHex)
    ensures |id| == 8
    ensures forall i :: 0 <= i < |id| ==> IsLowerHexDigit(id[i])
    ensures id <= uuidHex
  {
    uuidHex[..8]
  }

  /**
   * An item built without an explicit id; `uuidHex` stands for the UUID the
   * id is drawn from.
   */
  function NewItem(
    uuidHex: string,
    body: string,
    points: int,
    courses: map<string, CourseAssignment> := map[],
    criteria: seq<Criterion> := [],
    solution: Option<string> := None): (it: Item)
    requires IsUuidHex(uuidHex)
    ensures |it.id| == 8 && it.id <= uuidHex
    ensures it.body == body && it.points == points
    ensures it.courses == courses && it.criteria == criteria && it.solution == solution
  {
    Item(GeneratedId(uuidHex), body, points, courses, criteria, solution)
  }

  /** Fields left out get an 8-character id, no solution, no courses and no criteria. */
  lemma NewItemDefaults(uuidHex: string, body: string, points: int)
    requires IsUuidHex(uuidHex)
    ensures var it := NewItem(uuidHex, body, points);
      |it.id| == 8 && it.solution == None && it.courses == map[] && it.criteria == []
  {
  }
}
