/**
 * The console grade tracker (class StudentGrades in CodeAlpha.java): a list
 * of integer grades filled from typed input, and the highest grade, the
 * lowest grade and the integer sum behind the average computed by linear scans.
 */
module CodeAlpha {
  import opened JavaInt
  import opened Wrappers

  /** A grade `addGrades` accepts. */
  predicate IsGrade(g: int) {
    0 <= g <= 100
  }

  /** The mathematical sum of the grades, last one added last. */
  function Sum(s: seq<int32>): (r: int) {
    if s == [] then 0 else Sum(s[..|s| - 1]) + s[|s| - 1]
  }

  /** The grades that a sequence of typed lines contributes: the lines that parse to a number in 0..100, in order. */
  function Accepted(lines: seq<Option<int32>>): (r: seq<int32>) {
    if lines == [] then []
    else
      var last := lines[|lines| - 1];
      Accepted(lines[..|lines| - 1]) + (if last.Some? && IsGrade(last.value) then [last.value] else [])
  }

  ghost predicate IsHighest(s: seq<int32>, m: int) {
    m in s && forall g | g in s :: g <= m
  }

  ghost predicate IsLowest(s: seq<int32>, m: int) {
    m in s && forall g | g in s :: m <= g
  }

  // ---------------------------------------------------------------------
  // Properties

  /** Every accepted grade lies in 0..100, and no more grades are accepted than lines were read. */
  lemma {:induction false} AcceptedAreGrades(lines: seq<Option<int32>>)
    ensures forall g | g in Accepted(lines) :: IsGrade(g)
    ensures |Accepted(lines)| <= |lines|
  {
    if lines != [] {
      AcceptedAreGrades(lines[..|lines| - 1]);
    }
  }

  /** Reading more lines only appends grades: what earlier lines gave is kept, in input order. */
  lemma {:induction false} AcceptedAppend(a: seq<Option<int32>>, b: seq<Option<int32>>)
    ensures Accepted(a + b) == Accepted(a) + Accepted(b)
    decreases |b|
  {
    if b == [] {
      assert a + b == a;
    } else {
      var b' := b[..|b| - 1];
      assert (a + b)[..|a + b| - 1] == a + b';
      AcceptedAppend(a, b');
    }
  }

  /** The sum of n grades lies between n times the lowest and n times the highest. */
  lemma {:induction false} SumBounds(s: seq<int32>, lo: int, hi: int)
    requires forall g | g in s :: lo <= g <= hi
    ensures lo * |s| <= Sum(s) <= hi * |s|
  {
    if s != [] {
      var init := s[..|s| - 1];
      assert forall g | g in init :: g in s;
      SumBounds(init, lo, hi);
      assert s[|s| - 1] in s;
      assert lo * |s| == lo * |init| + lo;
      assert hi * |s| == hi * |init| + hi;
    }
  }

  /** lowest * n <= sum <= highest * n for a non-empty list of n grades. */
  lemma SumBetweenExtremes(s: seq<int32>, lowest: int, highest: int)
    requires IsLowest(s, lowest) && IsHighest(s, highest)
    ensures lowest * |s| <= Sum(s) <= highest * |s|
  {
    SumBounds(s, lowest, highest);
  }

  /**
   * For lists of valid grades up to 21474836 long the `int` sum cannot
   * overflow, so the wrapped sum is the true sum.
   */
  lemma GradeSumFitsInt(s: seq<int32>)
    requires forall g | g in s :: IsGrade(g)
    requires |s| <= 21474836
    ensures Wrap32(Sum(s)) == Sum(s)
  {
    SumBounds(s, 0, 100);
  }

  // ---------------------------------------------------------------------
  // The static methods of the grade tracker

  method GetHighestGrade(grades: seq<int32>) returns (highest: int32)
    requires |grades| > 0
    ensures IsHighest(grades, highest)
  {
    highest := grades[0];
    var i := 0;
    while i < |grades|
      invariant 0 <= i <= |grades|
      invariant highest in grades
      invariant forall k | 0 <= k < i :: grades[k] <= highest
    {
      if grades[i] > highest {
        highest := grades[i];
      }
      i := i + 1;
    }
  }

  method GetLowestGrade(grades: seq<int32>) returns (lowest: int32)
    requires |grades| > 0
    ensures IsLowest(grades, lowest)
  {
    lowest := grades[0];
    var i := 0;
    while i < |grades|
      invariant 0 <= i <= |grades|
      invariant lowest in grades
      invariant forall k | 0 <= k < i :: lowest <= grades[k]
    {
      if grades[i] < lowest {
        lowest := grades[i];
      }
      i := i + 1;
    }
  }

  /**
   * The loop of `getAverageGrade`: the `int` sum of the grades (the true sum
   * wrapped to 32 bits) and the count it is divided by.
   */
  method GetAverageGrade(grades: seq<int32>) returns (sum: int32, count: nat)
    ensures sum == Wrap32(Sum(grades))
    ensures count == |grades|
  {
    sum := 0;
    var i := 0;
    while i < |grades|
      invariant 0 <= i <= |grades|
      invariant sum == Wrap32(Sum(grades[..i]))
    {
      assert grades[..i + 1][..i] == grades[..i];
      WrapAdd(Sum(grades[..i]), grades[i]);
      sum := Wrap32(sum + grades[i]);
      i := i + 1;
    }
    assert grades[..i] == grades;
    count := |grades|;
  }

  /** What a menu choice prints. */
  datatype Reply =
    | AddGradesChosen
    | NoGrades                              // "No grades entered yet."
    | Average(sum: int32, count: nat)       // printed as sum / count in floating point
    | Highest(grade: int32)
    | Lowest(grade: int32)
    | Goodbye
    | InvalidChoice

  /** One turn of the menu in `main` once the choice is parsed: the statistics are computed only on a non-empty list. */
  method Query(grades: seq<int32>, choice: int) returns (reply: Reply)
    ensures choice == 1 ==> reply == AddGradesChosen
    ensures 2 <= choice <= 4 && grades == [] ==> reply == NoGrades
    ensures choice == 2 && grades != [] ==> reply == Average(Wrap32(Sum(grades)), |grades|)
    ensures choice == 3 && grades != [] ==> reply.Highest? && IsHighest(grades, reply.grade)
    ensures choice == 4 && grades != [] ==> reply.Lowest? && IsLowest(grades, reply.grade)
    ensures choice == 5 ==> reply == Goodbye
    ensures !(1 <= choice <= 5) ==> reply == InvalidChoice
  {
    if choice == 1 {
      reply := AddGradesChosen;
    } else if choice == 2 {
      if grades == [] {
        reply := NoGrades;
      } else {
        var sum, count := GetAverageGrade(grades);
        reply := Average(sum, count);
      }
    } else if choice == 3 {
      if grades == [] {
        reply := NoGrades;
      } else {
        var highest := GetHighestGrade(grades);
        reply := Highest(highest);
      }
    } else if choice == 4 {
      if grades == [] {
        reply := NoGrades;
      } else {
        var lowest := GetLowestGrade(grades);
        reply := Lowest(lowest);
      }
    } else if choice == 5 {
      reply := Goodbye;
    } else {
      reply := InvalidChoice;
    }
  }

  // ---------------------------------------------------------------------
  // The grade list and addGrades

  /** The `ArrayList<Integer>` that `main` creates empty and `addGrades` appends to. */
  class GradeList {
    var grades: seq<int32>

    /** Every stored grade is in 0..100. */
    ghost predicate Valid()
      reads this
    {
      forall g | g in grades :: IsGrade(g)
    }

    constructor ()
      ensures grades == [] && Valid()
    {
      grades := [];
    }
  }

  /** How `addGrades` ends. */
  datatype AddOutcome =
    | InvalidCount     // the number of students did not parse
    | Completed        // numberOfStudents valid grades were added
    | InputExhausted   // no line left to read: `Scanner.nextLine` throws

  /**
   * `addGrades`: read the number of students, then read lines until that
   * many valid grades have been appended, retrying a line that does not
   * parse or lies outside 0..100. `consumed` is the number of grade lines read.
   */
  method AddGrades(list: GradeList, numberOfStudents: Option<int32>, lines: seq<Option<int32>>)
    returns (outcome: AddOutcome, consumed: nat)
    requires list.Valid()
    modifies list
    ensures list.Valid()
    ensures outcome == InvalidCount <==> numberOfStudents.None?
    ensures consumed <= |lines|
    ensures list.grades == old(list.grades) + Accepted(lines[..consumed])
    ensures outcome == InvalidCount ==> consumed == 0
    ensures outcome == Completed ==> |Accepted(lines[..consumed])| == if numberOfStudents.value < 0 then 0 else numberOfStudents.value
    ensures outcome == InputExhausted ==> consumed == |lines| && |Accepted(lines)| < numberOfStudents.value
    ensures numberOfStudents.Some? ==> forall k | 0 <= k < consumed :: |Accepted(lines[..k])| < numberOfStudents.value
  {
    if numberOfStudents.None? {
      return InvalidCount, 0;
    }
    var n := numberOfStudents.value;
    consumed := 0;
    var i := 0;
    while i < n
      invariant 0 <= i <= if n < 0 then 0 else n
      invariant consumed <= |lines|
      invariant i == |Accepted(lines[..consumed])|
      invariant list.grades == old(list.grades) + Accepted(lines[..consumed])
      invariant list.Valid()
      invariant forall k | 0 <= k < consumed :: |Accepted(lines[..k])| < n
      decreases |lines| - consumed
    {
      if consumed == |lines| {
        assert lines[..consumed] == lines;
        return InputExhausted, consumed;
      }
      assert lines[..consumed + 1][..consumed] == lines[..consumed];
      AcceptedAreGrades(lines[..consumed + 1]);
      var line := lines[consumed];
      consumed := consumed + 1;
      match line {
        case None =>
          i := i - 1;
        case Some(grade) =>
          if grade < 0 || grade > 100 {
            i := i - 1;
          } else {
            list.grades := list.grades + [grade];
          }
      }
      i := i + 1;
    }
    outcome := Completed;
  }
}
