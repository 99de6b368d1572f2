/**
 * The NLU layer (nlu.py): entity extraction by the two fixed patterns, the
 * rule-based intent detector, the FAQ retriever's selection step, and their
 * composition into one analysis per message.
 *
 * Stored intent patterns are opaque: a detector carries `search(pattern,
 * text)`, standing for `re.search(pattern, text, re.I)` succeeding. The FAQ
 * retriever carries `similarity(query, document)`, standing for the TF-IDF
 * cosine similarity of the fitted vectorizer.
 */
module Nlu {
  import opened Wrappers
  import opened Text
  import opened Data

  // ---------------------------------------------------------------------
  // COURSE_RE = \b(\d{3}\.\d{3})\b

  /** A course code `ddd.ddd` starts at `i`, with a word boundary on each side. */
  predicate CourseAt(s: string, i: nat) {
    && i + 7 <= |s|
    && IsDigit(s[i]) && IsDigit(s[i + 1]) && IsDigit(s[i + 2])
    && s[i + 3] == '.'
    && IsDigit(s[i + 4]) && IsDigit(s[i + 5]) && IsDigit(s[i + 6])
    && (i == 0 || !IsWordChar(s[i - 1]))
    && (i + 7 == |s| || !IsWordChar(s[i + 7]))
  }

  /** `COURSE_RE.search` from position `from`: the leftmost match. */
  function FindCourse(s: string, from: nat): (r: Option<nat>)
    requires from <= |s|
    decreases |s| - from
    ensures r.Some? ==> from <= r.value && CourseAt(s, r.value)
    ensures r.Some? ==> forall j: nat :: from <= j < r.value ==> !CourseAt(s, j)
    ensures r.None? ==> forall j: nat :: from <= j ==> !CourseAt(s, j)
  {
    if from + 7 > |s| then None
    else if CourseAt(s, from) then Some(from)
    else FindCourse(s, from + 1)
  }

  // ---------------------------------------------------------------------
  // ASSIGN_RE = \b(?:A(?:ssignment)?\s*\d+|A\d+)\b, case-insensitive

  predicate IsLetterA(c: char) {
    c == 'a' || c == 'A'
  }

  /** `c` is the letter given by its two cases, as under `re.IGNORECASE`. */
  predicate IsEither(c: char, lower: char, upper: char) {
    c == lower || c == upper
  }

  /** The rest of the word "Assignment", the letters "ssignment", occurs at
      `j` in any mix of cases. */
  predicate AssignmentWordAt(s: string, j: nat) {
    && j + 9 <= |s|
    && IsEither(s[j], 's', 'S') && IsEither(s[j + 1], 's', 'S') && IsEither(s[j + 2], 'i', 'I')
    && IsEither(s[j + 3], 'g', 'G') && IsEither(s[j + 4], 'n', 'N') && IsEither(s[j + 5], 'm', 'M')
    && IsEither(s[j + 6], 'e', 'E') && IsEither(s[j + 7], 'n', 'N') && IsEither(s[j + 8], 't', 'T')
  }

  /** The length of the run of whitespace starting at `j`. */
  function SpaceRun(s: string, j: nat): (n: nat)
    requires j <= |s|
    decreases |s| - j
    ensures j + n <= |s|
    ensures AllSpace(s[j..j + n])
    ensures j + n == |s| || !IsSpace(s[j + n])
  {
    if j < |s| && IsSpace(s[j]) then
      var n := SpaceRun(s, j + 1);
      assert s[j..j + 1 + n] == [s[j]] + s[j + 1..j + 1 + n];
      1 + n
    else 0
  }

  /** The length of the run of digits starting at `j`. */
  function DigitRun(s: string, j: nat): (n: nat)
    requires j <= |s|
    decreases |s| - j
    ensures j + n <= |s|
    ensures AllDigits(s[j..j + n])
    ensures j + n == |s| || !IsDigit(s[j + n])
    ensures j < |s| && IsDigit(s[j]) ==> 1 <= n
  {
    if j < |s| && IsDigit(s[j]) then
      var n := DigitRun(s, j + 1);
      assert s[j..j + 1 + n] == [s[j]] + s[j + 1..j + 1 + n];
      1 + n
    else 0
  }

  /** Where a match starting with the letter A at `i` goes on: after
      "ssignment" when that follows, otherwise right after the A. */
  function AfterLetter(s: string, i: nat): (j: nat)
    requires i < |s|
    ensures i < j <= |s|
  {
    if AssignmentWordAt(s, i + 1) then i + 10 else i + 1
  }

  /** The end of the digit run that closes an ASSIGN_RE match at `k`: at
      least one digit, and no word character right after the run. */
  function DigitsEnd(s: string, k: nat): (r: Option<nat>)
    requires k <= |s|
    ensures r.Some? ==> k < r.value <= |s| && AllDigits(s[k..r.value])
  {
    if k < |s| && IsDigit(s[k]) then
      var m := k + DigitRun(s, k);
      if m == |s| || !IsWordChar(s[m]) then Some(m) else None
    else None
  }

  /** The end of an ASSIGN_RE match starting at `i`, if one starts there.
      Backtracking cannot help: a shorter digit run ends next to a digit, and
      without the optional "ssignment" the A would be followed by an `s`. */
  function AssignEnd(s: string, i: nat): (r: Option<nat>)
    ensures r.Some? ==> i < r.value <= |s|
  {
    if i < |s| && IsLetterA(s[i]) && (i == 0 || !IsWordChar(s[i - 1])) then
      var j := AfterLetter(s, i);
      DigitsEnd(s, j + SpaceRun(s, j))
    else None
  }

  /** `ASSIGN_RE.search` from position `from`: the leftmost match start. */
  function FindAssign(s: string, from: nat): (r: Option<nat>)
    requires from <= |s|
    decreases |s| - from
    ensures r.Some? ==> from <= r.value && AssignEnd(s, r.value).Some?
  {
    if from == |s| then None
    else if AssignEnd(s, from).Some? then Some(from)
    else FindAssign(s, from + 1)
  }

  /** No match starts at `j` when the search from `from <= j` finds nothing
      or finds a start after `j`. */
  lemma {:induction false} FindAssignNotBefore(s: string, from: nat, j: nat)
    requires from <= |s| && from <= j
    decreases j - from
    ensures (FindAssign(s, from).None? || j < FindAssign(s, from).value) ==> AssignEnd(s, j).None?
  {
    if from < j && from < |s| && AssignEnd(s, from).None? {
      FindAssignNotBefore(s, from + 1, j);
    }
  }

  /** `.upper().replace("ASSIGNMENT", "A").replace(" ", "")` on the matched text. */
  function NormalizeAssignment(t: string): string {
    RemoveChar(ReplaceAll(UpperAscii(t), "ASSIGNMENT", "A"), ' ')
  }

  /** `extract_entities`: both keys, each the first match or None. */
  function ExtractEntities(text: string): Entities {
    Entities(
      match FindCourse(text, 0)
      case Some(i) => Some(text[i..i + 7])
      case None => None,
      match FindAssign(text, 0)
      case Some(i) => Some(NormalizeAssignment(text[i..AssignEnd(text, i).value]))
      case None => None)
  }

  /** The course search returns the first start of a course code. */
  lemma FindCourseFirst(text: string)
    ensures FindCourse(text, 0).None? <==> forall i: nat :: !CourseAt(text, i)
    ensures forall i: nat :: CourseAt(text, i) && (forall j: nat :: j < i ==> !CourseAt(text, j)) ==>
              FindCourse(text, 0) == Some(i)
  {
    var r := FindCourse(text, 0);
    if r.Some? {
      forall i: nat | CourseAt(text, i) && (forall j: nat :: j < i ==> !CourseAt(text, j))
        ensures i == r.value
      {
      }
    }
  }

  /** The course is the first word-bounded `ddd.ddd` of the text, and None
      exactly when there is none. */
  lemma CourseIsFirstMatch(text: string)
    ensures ExtractEntities(text).course.None? <==> forall i: nat :: !CourseAt(text, i)
    ensures forall i: nat :: CourseAt(text, i) && (forall j: nat :: j < i ==> !CourseAt(text, j)) ==>
              ExtractEntities(text).course == Some(text[i..i + 7])
  {
    FindCourseFirst(text);
  }

  /** The assignment search returns the first start of a match. */
  lemma FindAssignFirst(text: string)
    ensures FindAssign(text, 0).None? <==> forall i: nat :: AssignEnd(text, i).None?
    ensures forall i: nat :: AssignEnd(text, i).Some? && (forall j: nat :: j < i ==> AssignEnd(text, j).None?) ==>
              FindAssign(text, 0) == Some(i)
  {
    if FindAssign(text, 0).None? {
      forall i: nat ensures AssignEnd(text, i).None? {
        FindAssignNotBefore(text, 0, i);
      }
    }
    forall i: nat | AssignEnd(text, i).Some? && (forall j: nat :: j < i ==> AssignEnd(text, j).None?)
      ensures FindAssign(text, 0) == Some(i)
    {
      FindAssignNotBefore(text, 0, i);
    }
  }

  /** The assignment is the normalised text of the first ASSIGN_RE match, and
      None exactly when nothing matches. */
  lemma AssignmentIsFirstMatch(text: string)
    ensures ExtractEntities(text).assignment.None? <==> forall i: nat :: AssignEnd(text, i).None?
    ensures forall i: nat :: AssignEnd(text, i).Some? && (forall j: nat :: j < i ==> AssignEnd(text, j).None?) ==>
              ExtractEntities(text).assignment == Some(NormalizeAssignment(text[i..AssignEnd(text, i).value]))
  {
    FindAssignFirst(text);
  }

  /** Upper-casing the letter part of a match gives "A" or "ASSIGNMENT". */
  lemma UpperOfLetters(s: string, i: nat)
    requires i < |s| && IsLetterA(s[i])
    ensures var j := AfterLetter(s, i);
            UpperAscii(s[i..j]) == (if j == i + 10 then "ASSIGNMENT" else "A")
  {
    var j := AfterLetter(s, i);
    var u := UpperAscii(s[i..j]);
    if j == i + 10 {
      var big := "ASSIGNMENT";
      forall x | 0 <= x < 10
        ensures u[x] == big[x]
      {
        assert s[i..j][x] == s[i + x];
      }
    }
  }

  /** Upper-casing whitespace and digits changes nothing. */
  lemma UpperOfSpacesAndDigits(t: string)
    requires forall x :: 0 <= x < |t| ==> IsSpace(t[x]) || IsDigit(t[x])
    ensures UpperAscii(t) == t
  {
    var u := UpperAscii(t);
    forall x | 0 <= x < |t|
      ensures u[x] == t[x]
    {
      assert IsSpace(t[x]) || IsDigit(t[x]);
    }
  }

  /** Upper-casing a match with letter part `s[i..j]`, whitespace `s[j..k]`
      and digits `s[k..m]`: the letter part becomes "A" or "ASSIGNMENT", the
      rest is kept. */
  lemma UpperOfMatch(s: string, i: nat, k: nat, m: nat)
    requires i < |s| && IsLetterA(s[i])
    requires AfterLetter(s, i) <= k <= m <= |s|
    requires AllSpace(s[AfterLetter(s, i)..k]) && AllDigits(s[k..m])
    ensures var j := AfterLetter(s, i);
            UpperAscii(s[i..m]) == (if j == i + 10 then "ASSIGNMENT" else "A") + s[j..m]
  {
    var j := AfterLetter(s, i);
    assert s[i..m] == s[i..j] + s[j..m];
    UpperAsciiAppend(s[i..j], s[j..m]);
    UpperOfLetters(s, i);
    assert forall x :: 0 <= x < m - j ==> IsSpace(s[j..m][x]) || IsDigit(s[j..m][x]) by {
      forall x | 0 <= x < m - j
        ensures IsSpace(s[j..m][x]) || IsDigit(s[j..m][x])
      {
        if x < k - j {
          assert s[j..m][x] == s[j..k][x] && IsSpace(s[j..k][x]);
        } else {
          assert s[j..m][x] == s[k..m][x - (k - j)] && IsDigit(s[k..m][x - (k - j)]);
        }
      }
    }
    UpperOfSpacesAndDigits(s[j..m]);
  }

  /** Replacing "ASSIGNMENT" in the upper-cased match leaves "A" and the rest. */
  lemma ReplaceInMatch(head: string, rest: string)
    requires head == "ASSIGNMENT" || head == "A"
    requires rest != [] && 'A' !in rest && rest[0] != 'S'
    ensures ReplaceAll(head + rest, "ASSIGNMENT", "A") == "A" + rest
  {
    var u := head + rest;
    ReplaceAllAbsent(rest, "ASSIGNMENT", "A");
    if head == "ASSIGNMENT" {
      assert u[..10] == "ASSIGNMENT";
      assert u[10..] == rest;
    } else if |u| >= 10 {
      assert u[..10][1] == rest[0];
      assert u[1..] == rest;
    }
  }

  /** Normalising an upper-cased match whose letter part is `head`. */
  lemma NormalizeParts(head: string, spaces: string, digits: string)
    requires head == "ASSIGNMENT" || head == "A"
    requires AllSpace(spaces)
    requires digits != [] && AllDigits(digits)
    ensures RemoveChar(ReplaceAll(head + (spaces + digits), "ASSIGNMENT", "A"), ' ')
            == "A" + RemoveChar(spaces, ' ') + digits
  {
    var rest := spaces + digits;
    assert 'A' !in rest && rest[0] != 'S' by {
      forall x | 0 <= x < |rest| ensures rest[x] != 'A' && rest[x] != 'S' {
        if x < |spaces| {
          assert IsSpace(spaces[x]);
        } else {
          assert IsDigit(digits[x - |spaces|]);
        }
      }
    }
    ReplaceInMatch(head, rest);
    assert RemoveChar("A" + rest, ' ') == "A" + RemoveChar(rest, ' ') by {
      RemoveCharAppend("A", rest, ' ');
      assert RemoveChar("A", ' ') == "A";
    }
    assert RemoveChar(rest, ' ') == RemoveChar(spaces, ' ') + digits by {
      assert ' ' !in digits by {
        forall x | 0 <= x < |digits| ensures digits[x] != ' ' {
          assert IsDigit(digits[x]);
        }
      }
      RemoveCharAppend(spaces, digits, ' ');
      RemoveCharAbsent(digits, ' ');
    }
    assert "A" + (RemoveChar(spaces, ' ') + digits) == "A" + RemoveChar(spaces, ' ') + digits;
  }

  /** Normalising a text whose upper-cased form splits into the letter part,
      whitespace and digits. */
  lemma NormalizeUpper(t: string, head: string, spaces: string, digits: string)
    requires head == "ASSIGNMENT" || head == "A"
    requires AllSpace(spaces)
    requires digits != [] && AllDigits(digits)
    requires UpperAscii(t) == head + (spaces + digits)
    ensures NormalizeAssignment(t) == "A" + RemoveChar(spaces, ' ') + digits
  {
    NormalizeParts(head, spaces, digits);
  }

  /** The parts of a match: whitespace from the end of the letter part up
      to a non-empty run of digits that ends the match. */
  lemma MatchParts(s: string, i: nat)
    requires AssignEnd(s, i).Some?
    ensures i < |s| && IsLetterA(s[i])
    ensures AfterLetter(s, i) + SpaceRun(s, AfterLetter(s, i)) < AssignEnd(s, i).value
    ensures AllSpace(s[AfterLetter(s, i)..AfterLetter(s, i) + SpaceRun(s, AfterLetter(s, i))])
    ensures AllDigits(s[AfterLetter(s, i) + SpaceRun(s, AfterLetter(s, i))..AssignEnd(s, i).value])
  {
  }

  /** The normalised assignment is "A", then the whitespace between the letter
      part and the digits with its spaces removed, then the digits (which
      `MatchParts` shows are a non-empty run). */
  lemma NormalizeMatch(s: string, i: nat)
    requires AssignEnd(s, i).Some?
    ensures var j := AfterLetter(s, i);
            var k := j + SpaceRun(s, j);
            var m := AssignEnd(s, i).value;
            NormalizeAssignment(s[i..m]) == "A" + RemoveChar(s[j..k], ' ') + s[k..m]
  {
    MatchParts(s, i);
    var j := AfterLetter(s, i);
    var k := j + SpaceRun(s, j);
    var m := AssignEnd(s, i).value;
    UpperOfMatch(s, i, k, m);
    assert s[j..m] == s[j..k] + s[k..m];
    NormalizeUpper(s[i..m], if j == i + 10 then "ASSIGNMENT" else "A", s[j..k], s[k..m]);
  }

  /** "Assignment 1" is normalised to "A1". */
  lemma LongFormExample(text: string)
    requires text == "Assignment 1"
    ensures ExtractEntities(text).assignment == Some("A1")
  {
    assert AfterLetter(text, 0) == 10;
    assert AssignEnd(text, 0) == Some(12) by {
      assert SpaceRun(text, 11) == 0;
      assert SpaceRun(text, 10) == 1;
      assert DigitRun(text, 11) == 1;
    }
    assert FindAssign(text, 0) == Some(0);
    var spaces, digits := text[10..11], text[11..12];
    assert spaces == " " && digits == "1";
    assert text[10..12] == spaces + digits;
    UpperOfMatch(text, 0, 11, 12);
    NormalizeUpper(text[0..12], "ASSIGNMENT", spaces, digits);
    assert RemoveChar(" ", ' ') == RemoveChar("", ' ') == "";
    assert "A" + "" + "1" == "A1";
  }

  /** "a1" is normalised to "A1". */
  lemma LowerCaseExample(text: string)
    requires text == "a1"
    ensures ExtractEntities(text).assignment == Some("A1")
  {
    ShortMatch(text, 0);
    assert FindAssign(text, 0) == Some(0);
    ShortNormalized(text, 0);
  }

  /** "A 1" is normalised to "A1". */
  lemma SpacedExample(text: string)
    requires text == "A 1"
    ensures ExtractEntities(text).assignment == Some("A1")
  {
    assert AfterLetter(text, 0) == 1;
    assert SpaceRun(text, 2) == 0;
    assert SpaceRun(text, 1) == 1;
    assert DigitRun(text, 2) == 1;
    assert AssignEnd(text, 0) == Some(3);
    assert FindAssign(text, 0) == Some(0);
    NormalizeMatch(text, 0);
    assert text[1..2] == " " && text[2..3] == "1";
    assert RemoveChar(" ", ' ') == RemoveChar("", ' ') == "";
    assert "A" + "" + "1" == "A1";
  }

  /** A course code and an assignment in one message are both found. */
  lemma CourseExample(text: string)
    requires text == "158.780 A1"
    ensures ExtractEntities(text) == Entities(Some("158.780"), Some("A1"))
  {
    ShortMatch(text, 8);
    FindAssignSkips(text, 0, 8);
    ShortNormalized(text, 8);
    assert CourseAt(text, 0);
    assert FindCourse(text, 0) == Some(0);
    assert text[0..7] == "158.780";
  }

  /** No course code is found inside a longer number. */
  lemma NoCourseInLongerNumber(text: string)
    requires text == "1158.780"
    ensures ExtractEntities(text).course == None
  {
    assert !CourseAt(text, 0);
    assert !CourseAt(text, 1);
    assert FindCourse(text, 2) == None;
    assert FindCourse(text, 1) == None;
  }

  /** Text without a letter `a` or `A` names no assignment. */
  lemma NoLetterNoAssignment(s: string)
    requires forall k :: 0 <= k < |s| ==> !IsLetterA(s[k])
    ensures ExtractEntities(s).assignment == None
  {
  }

  /** Text without a dot names no course. */
  lemma NoDotNoCourse(s: string)
    requires '.' !in s
    ensures ExtractEntities(s).course == None
  {
  }

  /** A bare course code gives the course and no assignment. */
  lemma CourseOnlyExample(text: string)
    requires text == "158.780"
    ensures ExtractEntities(text) == Entities(Some("158.780"), None)
  {
    assert CourseAt(text, 0);
    assert FindCourse(text, 0) == Some(0);
    assert text[0..7] == "158.780";
    NoLetterNoAssignment(text);
  }

  /** A search passes over a position that does not hold the letter A. */
  lemma FindAssignStep(s: string, k: nat)
    requires k < |s| && !IsLetterA(s[k])
    ensures FindAssign(s, k) == FindAssign(s, k + 1)
  {
    assert AssignEnd(s, k).None?;
  }

  /** A match cannot start where there is no letter A, so the search skips
      such a stretch. */
  lemma {:induction false} FindAssignSkips(s: string, from: nat, i: nat)
    requires from <= i <= |s|
    requires forall k :: from <= k < i ==> !IsLetterA(s[k])
    ensures FindAssign(s, from) == FindAssign(s, i)
    decreases i - from
  {
    if from < i {
      assert !IsLetterA(s[from]);
      FindAssignSkips(s, from + 1, i);
      FindAssignStep(s, from);
    }
  }

  /** An A followed by one digit, with a word boundary on each side, is a
      match of those two characters. */
  lemma ShortMatch(s: string, i: nat)
    requires i + 2 <= |s| && IsLetterA(s[i]) && IsDigit(s[i + 1])
    requires i == 0 || !IsWordChar(s[i - 1])
    requires i + 2 == |s| || !IsWordChar(s[i + 2])
    ensures AssignEnd(s, i) == Some(i + 2)
  {
    assert AfterLetter(s, i) == i + 1;
    assert SpaceRun(s, i + 1) == 0;
    assert DigitRun(s, i + 1) == 1 by {
      assert DigitRun(s, i + 2) == 0;
    }
  }

  /** Such a match normalises to "A" and the digit. */
  lemma ShortNormalized(s: string, i: nat)
    requires i + 2 <= |s| && IsLetterA(s[i]) && IsDigit(s[i + 1])
    ensures NormalizeAssignment(s[i..i + 2]) == ['A', s[i + 1]]
  {
    var d := s[i + 1..i + 2];
    assert d == [s[i + 1]] && AllDigits(d);
    assert s[i + 1..i + 1] == [];
    UpperOfMatch(s, i, i + 1, i + 2);
    assert UpperAscii(s[i..i + 2]) == "A" + ([] + d);
    NormalizeUpper(s[i..i + 2], "A", [], d);
    assert RemoveChar([], ' ') == [];
  }

  /** "A1 deadline?" gives the assignment and no course. */
  lemma AssignmentOnlyExample(text: string)
    requires text == "A1 deadline?"
    ensures ExtractEntities(text) == Entities(None, Some("A1"))
  {
    ShortMatch(text, 0);
    assert FindAssign(text, 0) == Some(0);
    ShortNormalized(text, 0);
    NoDotNoCourse(text);
  }

  // ---------------------------------------------------------------------
  // IntentDetector

  /** One row of the `intents` table: a name and its JSON-encoded patterns
      (possibly NULL). */
  datatype IntentRow = IntentRow(name: string, patterns: Option<string>)

  /** A detector rule: a name and its patterns, in stored order. */
  datatype Rule = Rule(name: string, patterns: seq<string>)

  /** The detector: its rules and the regular-expression search they use. */
  datatype IntentDetector = IntentDetector(rules: seq<Rule>, search: (string, string) -> bool)

  /** `json.loads(row.patterns or "[]")`, where a decoding error gives the
      empty list; `decode` stands for `json.loads`. */
  function RowPatterns(row: IntentRow, decode: string -> Option<seq<string>>): seq<string> {
    if !Present(row.patterns) then []
    else match decode(row.patterns.value)
      case Some(ps) => ps
      case None => []
  }

  /** `IntentDetector.__init__`: one rule per row, in retrieval order. A
      pattern that does not compile makes the constructor raise (None). */
  method BuildRules(rows: seq<IntentRow>, decode: string -> Option<seq<string>>, compiles: string -> bool)
    returns (rules: Option<seq<Rule>>)
    ensures rules.None? <==>
              exists i, p :: 0 <= i < |rows| && p in RowPatterns(rows[i], decode) && !compiles(p)
    ensures rules.Some? ==> |rules.value| == |rows|
    ensures rules.Some? ==> forall i :: 0 <= i < |rows| ==>
              rules.value[i] == Rule(rows[i].name, RowPatterns(rows[i], decode))
  {
    var acc: seq<Rule> := [];
    for i := 0 to |rows|
      invariant |acc| == i
      invariant forall x :: 0 <= x < i ==> acc[x] == Rule(rows[x].name, RowPatterns(rows[x], decode))
      invariant forall x, p :: 0 <= x < i && p in RowPatterns(rows[x], decode) ==> compiles(p)
    {
      var patterns := RowPatterns(rows[i], decode);
      for k := 0 to |patterns|
        invariant forall p :: p in patterns[..k] ==> compiles(p)
      {
        if !compiles(patterns[k]) {
          return None;
        }
      }
      assert patterns[..|patterns|] == patterns;
      acc := acc + [Rule(rows[i].name, patterns)];
    }
    return Some(acc);
  }

  /** A rule fires when any of its patterns is found in the text. */
  predicate RuleMatches(rule: Rule, t: string, search: (string, string) -> bool) {
    exists p :: p in rule.patterns && search(p, t)
  }

  /** The name of the first rule that fires, if any. */
  function FirstMatch(rules: seq<Rule>, t: string, search: (string, string) -> bool): Option<string> {
    if rules == [] then None
    else if RuleMatches(rules[0], t, search) then Some(rules[0].name)
    else FirstMatch(rules[1..], t, search)
  }

  /** What `detect` returns for a text: it matches the stripped text. */
  function Detected(d: IntentDetector, text: string): Option<string> {
    FirstMatch(d.rules, Strip(text), d.search)
  }

  /** `detect`: rules in stored order, each rule's patterns in order, and the
      name of the first pattern found. */
  method Detect(d: IntentDetector, text: string) returns (r: Option<string>)
    ensures r == Detected(d, text)
  {
    var t := Strip(text);
    for i := 0 to |d.rules|
      invariant FirstMatch(d.rules, t, d.search) == FirstMatch(d.rules[i..], t, d.search)
    {
      var rule := d.rules[i];
      for k := 0 to |rule.patterns|
        invariant forall p :: p in rule.patterns[..k] ==> !d.search(p, t)
      {
        if d.search(rule.patterns[k], t) {
          return Some(rule.name);
        }
      }
      assert rule.patterns[..|rule.patterns|] == rule.patterns;
      assert d.rules[i..][1..] == d.rules[i + 1..];
    }
    return None;
  }

  /** A rule that fires with no earlier rule firing is the one whose name
      is returned. */
  lemma {:induction false} FirstMatchAt(rules: seq<Rule>, t: string, search: (string, string) -> bool, i: nat)
    requires i < |rules| && RuleMatches(rules[i], t, search)
    requires forall j :: 0 <= j < i ==> !RuleMatches(rules[j], t, search)
    ensures FirstMatch(rules, t, search) == Some(rules[i].name)
  {
    if i > 0 {
      assert !RuleMatches(rules[0], t, search);
      forall j | 0 <= j < i - 1 ensures !RuleMatches(rules[1..][j], t, search) {
        assert rules[1..][j] == rules[j + 1];
      }
      FirstMatchAt(rules[1..], t, search, i - 1);
    }
  }

  /** A returned name belongs to a rule that fires with no earlier rule
      firing. */
  lemma {:induction false} FirstMatchWitness(rules: seq<Rule>, t: string, search: (string, string) -> bool)
    requires FirstMatch(rules, t, search).Some?
    ensures exists i :: 0 <= i < |rules| && rules[i].name == FirstMatch(rules, t, search).value
                        && RuleMatches(rules[i], t, search)
                        && forall j :: 0 <= j < i ==> !RuleMatches(rules[j], t, search)
  {
    if !RuleMatches(rules[0], t, search) {
      FirstMatchWitness(rules[1..], t, search);
      var i :| 0 <= i < |rules[1..]| && rules[1..][i].name == FirstMatch(rules, t, search).value
               && RuleMatches(rules[1..][i], t, search)
               && forall j :: 0 <= j < i ==> !RuleMatches(rules[1..][j], t, search);
      forall j | 0 <= j < i + 1 ensures !RuleMatches(rules[j], t, search) {
        if j > 0 {
          assert rules[j] == rules[1..][j - 1];
        }
      }
      assert rules[i + 1] == rules[1..][i];
    }
  }

  /** The first-match rule: a name is returned exactly when some rule with
      that name fires and no earlier rule does. Ties go to the earliest rule. */
  lemma FirstMatchIsEarliest(rules: seq<Rule>, t: string, search: (string, string) -> bool, name: string)
    ensures FirstMatch(rules, t, search) == Some(name) <==>
              exists i :: 0 <= i < |rules| && rules[i].name == name && RuleMatches(rules[i], t, search)
                          && forall j :: 0 <= j < i ==> !RuleMatches(rules[j], t, search)
  {
    if FirstMatch(rules, t, search) == Some(name) {
      FirstMatchWitness(rules, t, search);
    }
    if exists i :: 0 <= i < |rules| && rules[i].name == name && RuleMatches(rules[i], t, search)
                   && forall j :: 0 <= j < i ==> !RuleMatches(rules[j], t, search) {
      var i :| 0 <= i < |rules| && rules[i].name == name && RuleMatches(rules[i], t, search)
               && forall j :: 0 <= j < i ==> !RuleMatches(rules[j], t, search);
      FirstMatchAt(rules, t, search, i);
    }
  }

  /** Nothing is returned exactly when no rule fires. */
  lemma {:induction false} FirstMatchNone(rules: seq<Rule>, t: string, search: (string, string) -> bool)
    ensures FirstMatch(rules, t, search).None? <==> forall i :: 0 <= i < |rules| ==> !RuleMatches(rules[i], t, search)
  {
    if rules != [] {
      FirstMatchNone(rules[1..], t, search);
      if !RuleMatches(rules[0], t, search) && FirstMatch(rules, t, search).None? {
        forall i | 0 <= i < |rules| ensures !RuleMatches(rules[i], t, search) {
          if i > 0 {
            assert rules[i] == rules[1..][i - 1];
          }
        }
      }
    }
  }

  // ---------------------------------------------------------------------
  // FAQMatcher

  /** The retriever: the FAQ rows it was built from and the similarity of
      the fitted TF-IDF model. */
  datatype FaqMatcher = FaqMatcher(rows: seq<FaqRow>, similarity: (string, string) -> real)

  /** The indexed document of a row: `f"{r.question} {r.tags or ''}"`. */
  function Document(row: FaqRow): string {
    row.question + " " + (if row.tags.Some? then row.tags.value else "")
  }

  /** `cosine_similarity(qv, self.matrix)[0]`: one score per row. */
  function Scores(m: FaqMatcher, text: string): (sims: seq<real>)
    ensures |sims| == |m.rows|
  {
    seq(|m.rows|, i requires 0 <= i < |m.rows| => m.similarity(text, Document(m.rows[i])))
  }

  /** `i` is where `argmax` stops: a maximum with no maximum before it. */
  predicate IsFirstMax(xs: seq<real>, i: int) {
    && 0 <= i < |xs|
    && (forall j :: 0 <= j < |xs| ==> xs[j] <= xs[i])
    && (forall j :: 0 <= j < i ==> xs[j] < xs[i])
  }

  /** `argmax`: the first index of the maximum. */
  function ArgMax(xs: seq<real>): (i: nat)
    requires xs != []
    ensures IsFirstMax(xs, i)
  {
    if |xs| == 1 then 0
    else
      var k := ArgMax(xs[..|xs| - 1]);
      if xs[|xs| - 1] > xs[k] then |xs| - 1 else k
  }

  /** `FAQMatcher.search`: the id of the best-scoring row when its score
      reaches the threshold, and the best score either way. */
  function Search(m: FaqMatcher, threshold: real, text: string): (r: (Option<int>, real))
    ensures m.rows == [] ==> r == (None, 0.0)
    ensures m.rows != [] ==>
              exists i :: IsFirstMax(Scores(m, text), i) && r.1 == Scores(m, text)[i]
                          && r.0 == (if r.1 >= threshold then Some(m.rows[i].id) else None)
  {
    if m.rows == [] then (None, 0.0)
    else
      var sims := Scores(m, text);
      var best := ArgMax(sims);
      var score := sims[best];
      if score >= threshold then (Some(m.rows[best].id), score) else (None, score)
  }

  // ---------------------------------------------------------------------
  // NLU

  /** The orchestrator: the retriever, the detector and FAQ_SIM_THRESHOLD. */
  datatype Engine = Engine(faq: FaqMatcher, detector: IntentDetector, threshold: real)

  /** `(intent, faq_id, confidence, entities)`. */
  datatype Analysis = Analysis(intent: Option<string>, faqId: Option<int>, confidence: real, entities: Entities)

  /** `NLU.analyze`. */
  function Analyze(nlu: Engine, text: string): Analysis {
    var ents := ExtractEntities(text);
    var it := Detected(nlu.detector, text);
    if Present(it) then Analysis(it, None, 1.0, ents)
    else
      var (faqId, score) := Search(nlu.faq, nlu.threshold, text);
      if faqId.Some? then Analysis(Some("faq"), faqId, score, ents)
      else Analysis(None, None, 0.0, ents)
  }

  /** Entities are attached in every branch; a rule intent wins with
      confidence 1.0 whatever the retriever would say; without one, a FAQ hit
      is labelled "faq" and carries the retriever's own id and score (at the
      threshold or above), and anything else is no intent with confidence 0.0. */
  lemma AnalyzeRouting(nlu: Engine, other: FaqMatcher, otherThreshold: real, text: string)
    ensures var a := Analyze(nlu, text);
      && a.entities == ExtractEntities(text)
      && (Present(Detected(nlu.detector, text)) ==>
            a == Analysis(Detected(nlu.detector, text), None, 1.0, a.entities)
            && a == Analyze(Engine(other, nlu.detector, otherThreshold), text))
      && (!Present(Detected(nlu.detector, text)) ==>
            && (a.faqId.Some? <==> a.intent == Some("faq"))
            && (a.faqId.Some? ==> a.confidence >= nlu.threshold
                                  && exists i :: 0 <= i < |nlu.faq.rows| && nlu.faq.rows[i].id == a.faqId.value)
            && (a.faqId.None? ==> a.intent == None && a.confidence == 0.0)
            && (nlu.faq.rows == [] ==> a == Analysis(None, None, 0.0, a.entities)))
    ensures !Present(Detected(nlu.detector, text)) ==>
      var (id, score) := Search(nlu.faq, nlu.threshold, text);
      id.Some? ==> Analyze(nlu, text).faqId == id && Analyze(nlu, text).confidence == score
                   && Analyze(nlu, text).intent == Some("faq")
    ensures !Present(Detected(nlu.detector, text)) ==>
      var (id, score) := Search(nlu.faq, nlu.threshold, text);
      id.None? ==> Analyze(nlu, text).faqId.None? && Analyze(nlu, text).intent.None?
                   && Analyze(nlu, text).confidence == 0.0
  {
  }
}
