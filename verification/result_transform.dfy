/**
 * The conversion of a result-API response into the portal's result record:
 * one semester entry per published result, sorted by semester with the
 * highest first, the referred subjects of every result collected once per
 * subject code, and the result of the highest semester as the latest.
 */
module ResultTransform {
  import opened Wrappers
  import opened Text
  import opened Lists

  // ---------------------------------------------------------------------------
  // The response and the record

  /** `result`: a plain text, or an object with a gpa and perhaps `ref_subjects`. */
  datatype ApiResult = Plain(text: string) | Graded(gradedGpa: string, refSubjects: Option<seq<string>>)

  /** One entry of `resultData`; the semester is taken as already read as a number. */
  datatype ApiEntry = ApiEntry(publishedAt: string, semester: int, result: ApiResult, passed: bool, gpa: Option<string>)

  datatype ApiResponse = ApiResponse(
    exam: string,
    roll: string,
    regulation: string,
    instituteCode: string,
    instituteName: string,
    district: string,
    resultData: seq<ApiEntry>)

  /** A referred subject; a code of None stands for NaN. */
  datatype Referred = Referred(subjectSemester: int, subjectCode: Option<int>, subjectName: string,
                               refferedType: string, passed: bool)

  /** One exam result; `gpa` holds the text handed to `parseFloat`, None for undefined. */
  datatype ExamResult = ExamResult(date: string, instituteCode: Option<int>, gpa: Option<string>,
                                   reffereds: seq<Referred>)

  datatype SemesterResult = SemesterResult(semester: int, examResults: seq<ExamResult>)

  datatype Institute = Institute(code: Option<int>, name: string, district: string)

  datatype StudyAidResult = StudyAidResult(
    exam: string,
    roll: Option<int>,
    regulation: Option<int>,
    otherRegulations: seq<string>,
    institute: Institute,
    currentReffereds: seq<Referred>,
    semesterResults: seq<SemesterResult>,
    latestResult: Option<ExamResult>)

  // ---------------------------------------------------------------------------
  // One entry

  /** `parseInt(subject.split('(')[0])`. */
  function SubjectCode(subject: string): Option<int> {
    ParseIntPrefix(Split(subject, "(")[0])
  }

  /** The referred subject built for one name of `ref_subjects`. */
  function ReferredOf(semester: int, subject: string): (r: Referred)
    ensures r.subjectSemester == semester && r.subjectName == subject
    ensures r.subjectCode == SubjectCode(subject)
    ensures r.refferedType == "T" && !r.passed
  {
    Referred(semester, SubjectCode(subject), subject, "T", false)
  }

  function ReferredsOf(semester: int, subjects: seq<string>): (r: seq<Referred>)
    ensures |r| == |subjects|
    ensures forall k :: 0 <= k < |r| ==> r[k] == ReferredOf(semester, subjects[k])
  {
    seq(|subjects|, k requires 0 <= k < |subjects| => ReferredOf(semester, subjects[k]))
  }

  /** The subjects of an entry: only an object result with `ref_subjects` has any. */
  function SubjectsOf(entry: ApiEntry): seq<string> {
    match entry.result
    case Graded(_, Some(subjects)) => subjects
    case _ => []
  }

  /** `result.gpa || '0'`. */
  function GpaText(gpa: Option<string>): string {
    if gpa.Some? && gpa.value != "" then gpa.value else "0"
  }

  /**
   * The semester entry built for one result: its semester, and one exam
   * result whose gpa text is present exactly when the result passed ("0"
   * when a passed result has none) and whose referred subjects are the
   * result's `ref_subjects`, in order.
   */
  function SemesterOf(entry: ApiEntry, instituteCode: Option<int>): (r: SemesterResult)
    ensures r.semester == entry.semester && |r.examResults| == 1
    ensures r.examResults[0].date == entry.publishedAt && r.examResults[0].instituteCode == instituteCode
    ensures r.examResults[0].gpa.Some? <==> entry.passed
    ensures entry.passed && (entry.gpa.None? || entry.gpa == Some("")) ==> r.examResults[0].gpa == Some("0")
    ensures r.examResults[0].reffereds == ReferredsOf(entry.semester, SubjectsOf(entry))
  {
    var gpa := if entry.passed then Some(GpaText(entry.gpa)) else None;
    SemesterResult(entry.semester, [ExamResult(entry.publishedAt, instituteCode, gpa,
                                               ReferredsOf(entry.semester, SubjectsOf(entry)))])
  }

  /** `resultData.map(...)`, before sorting. */
  function MapResults(entries: seq<ApiEntry>, instituteCode: Option<int>): (r: seq<SemesterResult>)
    ensures |r| == |entries|
    ensures forall k :: 0 <= k < |r| ==> r[k] == SemesterOf(entries[k], instituteCode)
  {
    MapSeq(entries, e => SemesterOf(e, instituteCode))
  }

  /** The referred subjects of a list of semester entries, in order. */
  function Flatten(results: seq<SemesterResult>): seq<Referred> {
    if |results| == 0 then []
    else
      var last := results[|results| - 1];
      Flatten(results[..|results| - 1]) + (if |last.examResults| > 0 then last.examResults[0].reffereds else [])
  }

  // ---------------------------------------------------------------------------
  // current_reffereds

  /**
   * `currentReferreds.some(ref => ref.subject_code === code)`: NaN equals
   * nothing, so a None code is never found.
   */
  predicate HasCode(acc: seq<Referred>, code: Option<int>) {
    code.Some? && exists k :: 0 <= k < |acc| && acc[k].subjectCode == code
  }

  /** One push of the collection loop: a subject whose code is already held is skipped. */
  function AddIfNew(acc: seq<Referred>, r: Referred): seq<Referred> {
    if HasCode(acc, r.subjectCode) then acc else acc + [r]
  }

  /** The referred subjects collected from `refs`, processed in order. */
  function Collected(refs: seq<Referred>): (c: seq<Referred>)
    ensures |c| <= |refs|
    ensures forall x :: x in c ==> x in refs
  {
    if |refs| == 0 then []
    else
      var init := refs[..|refs| - 1];
      var c := AddIfNew(Collected(init), refs[|refs| - 1]);
      assert forall x :: x in init ==> x in refs;
      c
  }

  /** No two subjects of `c` share a numeric code. */
  predicate DistinctCodes(c: seq<Referred>) {
    forall i, j :: 0 <= i < j < |c| && c[i].subjectCode.Some? ==> c[i].subjectCode != c[j].subjectCode
  }

  /** No two collected subjects share a (numeric) code. */
  lemma {:induction false} CollectedDistinctCodes(refs: seq<Referred>)
    ensures DistinctCodes(Collected(refs))
  {
    if |refs| > 0 {
      var init := refs[..|refs| - 1];
      var r := refs[|refs| - 1];
      CollectedDistinctCodes(init);
      var prev := Collected(init);
      if !HasCode(prev, r.subjectCode) {
        var c := prev + [r];
        NotHeld(prev, r.subjectCode);
        forall i, j | 0 <= i < j < |c| && c[i].subjectCode.Some? ensures c[i].subjectCode != c[j].subjectCode {
          assert c[i] == prev[i];
          if j < |prev| {
            assert c[j] == prev[j];
          } else {
            assert c[j] == r;
          }
        }
      }
    }
  }

  /** A numeric code not held differs from every code of the list. */
  lemma NotHeld(acc: seq<Referred>, code: Option<int>)
    requires !HasCode(acc, code)
    ensures forall k :: 0 <= k < |acc| && code.Some? ==> acc[k].subjectCode != code
  {
  }

  /** The codes held by a list with one more subject. */
  lemma HasCodePush(acc: seq<Referred>, r: Referred, code: Option<int>)
    ensures HasCode(acc + [r], code) <==> HasCode(acc, code) || (code.Some? && r.subjectCode == code)
  {
    var c := acc + [r];
    if HasCode(acc, code) {
      var k :| 0 <= k < |acc| && acc[k].subjectCode == code;
      assert c[k] == acc[k];
    }
    if code.Some? && r.subjectCode == code {
      assert c[|acc|] == r;
    }
    if HasCode(c, code) && !HasCode(acc, code) {
      var k :| 0 <= k < |c| && c[k].subjectCode == code;
      if k < |acc| {
        assert c[k] == acc[k];
      }
    }
  }

  /** A numeric code is held after collecting exactly when some input subject has it. */
  lemma {:induction false} CollectedCodes(refs: seq<Referred>, code: Option<int>)
    ensures HasCode(Collected(refs), code) <==> HasCode(refs, code)
  {
    if |refs| > 0 {
      var init := refs[..|refs| - 1];
      var r := refs[|refs| - 1];
      var prev := Collected(init);
      CollectedCodes(init, code);
      assert refs == init + [r];
      HasCodePush(init, r, code);
      if !HasCode(prev, r.subjectCode) {
        HasCodePush(prev, r, code);
      }
    }
  }

  /** No subject before index i has the (numeric) code of subject i. */
  predicate FirstOfCode(refs: seq<Referred>, i: nat)
    requires i < |refs|
  {
    forall j :: 0 <= j < i ==> !(refs[i].subjectCode.Some? && refs[j].subjectCode == refs[i].subjectCode)
  }

  /** Every collected subject is the first input subject with its code. */
  lemma {:induction false} CollectedKeepsFirst(refs: seq<Referred>, x: Referred)
    requires x in Collected(refs)
    ensures exists i :: 0 <= i < |refs| && refs[i] == x && FirstOfCode(refs, i)
  {
    var init := refs[..|refs| - 1];
    var r := refs[|refs| - 1];
    var prev := Collected(init);
    if x in prev {
      CollectedKeepsFirst(init, x);
      var i :| 0 <= i < |init| && init[i] == x && FirstOfCode(init, i);
      assert refs[i] == x;
      forall j | 0 <= j < i ensures !(x.subjectCode.Some? && refs[j].subjectCode == x.subjectCode) {
        assert refs[j] == init[j];
      }
    } else {
      assert x == r && !HasCode(prev, r.subjectCode);
      CollectedCodes(init, r.subjectCode);
      forall j | 0 <= j < |refs| - 1 ensures !(x.subjectCode.Some? && refs[j].subjectCode == x.subjectCode) {
        assert refs[j] == init[j];
      }
      assert FirstOfCode(refs, |refs| - 1);
    }
  }

  /** A subject whose code is NaN is never matched, so it is always collected. */
  lemma {:induction false} CollectedKeepsNaN(refs: seq<Referred>, k: nat)
    requires k < |refs| && refs[k].subjectCode.None?
    ensures refs[k] in Collected(refs)
  {
    var init := refs[..|refs| - 1];
    if k < |refs| - 1 {
      assert init[k] == refs[k];
      CollectedKeepsNaN(init, k);
    }
  }

  // ---------------------------------------------------------------------------
  // The whole conversion

  /** The sort key of `(a, b) => b.semester - a.semester`. */
  function NegSemester(r: SemesterResult): int {
    -r.semester
  }

  /**
   * The record built from the referred subjects collected and the semester
   * entries in result order: the entries sorted by descending semester, and
   * the latest result the first exam result of the first entry.
   */
  function Record(api: ApiResponse, code: Option<int>, currentReferreds: seq<Referred>, unsorted: seq<SemesterResult>): StudyAidResult {
    var sorted := SortBy(unsorted, NegSemester);
    StudyAidResult(
      api.exam,
      ParseIntPrefix(api.roll),
      ParseIntPrefix(api.regulation),
      [],
      Institute(code, api.instituteName, api.district),
      currentReferreds,
      sorted,
      if |sorted| > 0 && |sorted[0].examResults| > 0 then Some(sorted[0].examResults[0]) else None)
  }

  /** `transformPookieResponse` as one expression. */
  function TransformOf(api: ApiResponse): StudyAidResult {
    var code := ParseIntPrefix(api.instituteCode);
    var unsorted := MapResults(api.resultData, code);
    Record(api, code, Collected(Flatten(unsorted)), unsorted)
  }

  /**
   * `transformPookieResponse`: the map over `resultData` pushes each new
   * referred subject into `currentReferreds` as it goes; then the semester
   * entries are sorted and the record assembled.
   */
  method Transform(api: ApiResponse) returns (out: StudyAidResult)
    ensures out == TransformOf(api)
  {
    var instituteCode := ParseIntPrefix(api.instituteCode);
    var semesterResults, currentReferreds := MapResultData(api.resultData, instituteCode);
    TransformIsRecord(api, currentReferreds, semesterResults);
    out := Record(api, instituteCode, currentReferreds, semesterResults);
  }

  /**
   * `resultData.map(...)` with its callback's pushes: the semester entries in
   * result order, and the referred subjects collected from them.
   */
  method MapResultData(entries: seq<ApiEntry>, instituteCode: Option<int>)
    returns (semesterResults: seq<SemesterResult>, currentReferreds: seq<Referred>)
    ensures semesterResults == MapResults(entries, instituteCode)
    ensures currentReferreds == Collected(Flatten(semesterResults))
  {
    currentReferreds := [];
    semesterResults := [];
    var i := 0;
    while i < |entries|
      invariant 0 <= i <= |entries|
      invariant semesterResults == MapResults(entries[..i], instituteCode)
      invariant currentReferreds == Collected(Flatten(semesterResults))
    {
      var semesterResult;
      semesterResult, currentReferreds := MapEntry(entries[i], instituteCode, currentReferreds, semesterResults);
      MapResultsPush(entries, i, instituteCode);
      semesterResults := semesterResults + [semesterResult];
      i := i + 1;
    }
    assert entries[..i] == entries;
  }

  /** The record built from all entries, with the subjects collected from them, is the conversion's. */
  lemma TransformIsRecord(api: ApiResponse, currentReferreds: seq<Referred>, results: seq<SemesterResult>)
    requires results == MapResults(api.resultData, ParseIntPrefix(api.instituteCode))
    requires currentReferreds == Collected(Flatten(results))
    ensures TransformOf(api) == Record(api, ParseIntPrefix(api.instituteCode), currentReferreds, results)
  {
  }

  /**
   * The callback of `resultData.map(...)`: the semester entry of one result,
   * pushing each of its new referred subjects into `currentReferreds`, which
   * holds what was collected from the entries `done` built before it.
   */
  method MapEntry(result: ApiEntry, instituteCode: Option<int>, current: seq<Referred>, ghost done: seq<SemesterResult>)
    returns (semesterResult: SemesterResult, currentReferreds: seq<Referred>)
    requires current == Collected(Flatten(done))
    ensures semesterResult == SemesterOf(result, instituteCode)
    ensures currentReferreds == Collected(Flatten(done + [semesterResult]))
  {
    var subjects := SubjectsOf(result);
    var reffereds;
    reffereds, currentReferreds := MapSubjects(result.semester, subjects, current, Flatten(done));
    var gpa := if result.passed then Some(GpaText(result.gpa)) else None;
    var examResult := ExamResult(result.publishedAt, instituteCode, gpa, reffereds);
    semesterResult := SemesterResult(result.semester, [examResult]);
    FlattenPush(done, semesterResult);
  }

  /**
   * `ref_subjects.map(...)`: builds the referred subject of each name and
   * pushes it into `currentReferreds` unless its code is already held.
   */
  method MapSubjects(semester: int, subjects: seq<string>, current: seq<Referred>, ghost seen: seq<Referred>)
    returns (reffereds: seq<Referred>, currentReferreds: seq<Referred>)
    requires current == Collected(seen)
    ensures reffereds == ReferredsOf(semester, subjects)
    ensures currentReferreds == Collected(seen + reffereds)
  {
    reffereds := [];
    currentReferreds := current;
    assert seen + reffereds == seen;
    var j := 0;
    while j < |subjects|
      invariant 0 <= j <= |subjects|
      invariant reffereds == ReferredsOf(semester, subjects[..j])
      invariant currentReferreds == Collected(seen + reffereds)
    {
      var referredSubject := ReferredOf(semester, subjects[j]);
      CollectStep(seen, reffereds, referredSubject);
      ReferredsPush(semester, subjects, j);
      if !HasCode(currentReferreds, referredSubject.subjectCode) {
        currentReferreds := currentReferreds + [referredSubject];
      }
      reffereds := reffereds + [referredSubject];
      j := j + 1;
    }
    assert subjects[..j] == subjects;
  }

  lemma CollectedPush(refs: seq<Referred>, r: Referred)
    ensures Collected(refs + [r]) == AddIfNew(Collected(refs), r)
  {
    assert (refs + [r])[..|refs|] == refs;
  }

  /** One subject more in the loop of `MapSubjects` is one more push of the collection. */
  lemma CollectStep(seen: seq<Referred>, refs: seq<Referred>, r: Referred)
    ensures Collected(seen + (refs + [r])) == AddIfNew(Collected(seen + refs), r)
  {
    assert seen + (refs + [r]) == (seen + refs) + [r];
    CollectedPush(seen + refs, r);
  }

  lemma ReferredsPush(semester: int, subjects: seq<string>, j: nat)
    requires j < |subjects|
    ensures ReferredsOf(semester, subjects[..j + 1]) == ReferredsOf(semester, subjects[..j]) + [ReferredOf(semester, subjects[j])]
  {
    var a := ReferredsOf(semester, subjects[..j + 1]);
    var b := ReferredsOf(semester, subjects[..j]) + [ReferredOf(semester, subjects[j])];
    forall k | 0 <= k < |a| ensures a[k] == b[k] {
      assert subjects[..j + 1][k] == subjects[k];
      if k < j {
        assert subjects[..j][k] == subjects[k];
      }
    }
  }

  lemma FlattenPush(results: seq<SemesterResult>, r: SemesterResult)
    requires |r.examResults| > 0
    ensures Flatten(results + [r]) == Flatten(results) + r.examResults[0].reffereds
  {
    assert (results + [r])[..|results|] == results;
  }

  lemma MapResultsPush(entries: seq<ApiEntry>, i: nat, code: Option<int>)
    requires i < |entries|
    ensures MapResults(entries[..i + 1], code) == MapResults(entries[..i], code) + [SemesterOf(entries[i], code)]
  {
    MapPush(entries, i, e => SemesterOf(e, code));
  }

  // ---------------------------------------------------------------------------
  // What the record promises

  /**
   * One semester entry per result, each holding exactly one exam result, the
   * entries being those of the results, highest semester first.
   */
  lemma SemesterResultsShape(api: ApiResponse)
    ensures var out := TransformOf(api); var code := ParseIntPrefix(api.instituteCode);
      |out.semesterResults| == |api.resultData| &&
      multiset(out.semesterResults) == multiset(MapResults(api.resultData, code)) &&
      (forall k :: 0 <= k < |out.semesterResults| ==> |out.semesterResults[k].examResults| == 1) &&
      (forall i, j :: 0 <= i < j < |out.semesterResults| ==>
        out.semesterResults[i].semester >= out.semesterResults[j].semester)
  {
    var code := ParseIntPrefix(api.instituteCode);
    var unsorted := MapResults(api.resultData, code);
    assert TransformOf(api).semesterResults == SortBy(unsorted, NegSemester);
    MapResultsOneExam(api.resultData, code);
    SortedEntries(unsorted);
  }

  /** Every mapped entry holds exactly one exam result. */
  lemma MapResultsOneExam(entries: seq<ApiEntry>, code: Option<int>)
    ensures forall k :: 0 <= k < |MapResults(entries, code)| ==> |MapResults(entries, code)[k].examResults| == 1
  {
    var r := MapResults(entries, code);
    forall k | 0 <= k < |r| ensures |r[k].examResults| == 1 {
      assert r[k] == SemesterOf(entries[k], code);
    }
  }

  /** Sorting entries of one exam result each by descending semester keeps them so. */
  lemma SortedEntries(unsorted: seq<SemesterResult>)
    requires forall k :: 0 <= k < |unsorted| ==> |unsorted[k].examResults| == 1
    ensures var sorted := SortBy(unsorted, NegSemester);
      |sorted| == |unsorted| && multiset(sorted) == multiset(unsorted) &&
      (forall k :: 0 <= k < |sorted| ==> |sorted[k].examResults| == 1) &&
      (forall i, j :: 0 <= i < j < |sorted| ==> sorted[i].semester >= sorted[j].semester)
  {
    var sorted := SortBy(unsorted, NegSemester);
    assert |multiset(sorted)| == |multiset(unsorted)|;
    forall k | 0 <= k < |sorted| ensures |sorted[k].examResults| == 1 {
      assert sorted[k] in multiset(unsorted);
      var m :| 0 <= m < |unsorted| && unsorted[m] == sorted[k];
    }
    forall i, j | 0 <= i < j < |sorted| ensures sorted[i].semester >= sorted[j].semester {
      assert NegSemester(sorted[i]) <= NegSemester(sorted[j]);
    }
  }

  /** Every semester entry comes from one result, and its gpa is there exactly when that result passed. */
  lemma SemesterResultsFromEntries(api: ApiResponse, k: nat)
    requires k < |TransformOf(api).semesterResults|
    ensures var r := TransformOf(api).semesterResults[k];
      exists e :: e in api.resultData && r == SemesterOf(e, ParseIntPrefix(api.instituteCode)) &&
        (r.examResults[0].gpa.Some? <==> e.passed)
  {
    var code := ParseIntPrefix(api.instituteCode);
    var unsorted := MapResults(api.resultData, code);
    var r := TransformOf(api).semesterResults[k];
    assert r in multiset(unsorted);
    var m :| 0 <= m < |unsorted| && unsorted[m] == r;
    assert api.resultData[m] in api.resultData;
  }

  /**
   * The latest result is null exactly when there are no results; otherwise
   * it is the exam result of a semester no lower than any other.
   */
  lemma LatestIsHighest(api: ApiResponse)
    ensures var out := TransformOf(api);
      (out.latestResult.None? <==> |api.resultData| == 0) &&
      (out.latestResult.Some? ==>
        out.latestResult.value == out.semesterResults[0].examResults[0] &&
        forall e :: e in api.resultData ==> e.semester <= out.semesterResults[0].semester)
  {
    SemesterResultsShape(api);
    var out := TransformOf(api);
    var code := ParseIntPrefix(api.instituteCode);
    var unsorted := MapResults(api.resultData, code);
    forall e | e in api.resultData ensures e.semester <= out.semesterResults[0].semester {
      var m :| 0 <= m < |api.resultData| && api.resultData[m] == e;
      assert unsorted[m] in multiset(out.semesterResults);
      var n :| 0 <= n < |out.semesterResults| && out.semesterResults[n] == unsorted[m];
    }
  }

  /**
   * The collected subjects: no numeric code twice, each entry the first
   * subject with its code, every numeric code of the input present, and every
   * subject whose code is NaN kept.
   */
  lemma CollectedFacts(refs: seq<Referred>)
    ensures var c := Collected(refs);
      DistinctCodes(c) &&
      (forall x :: x in c ==> exists i :: 0 <= i < |refs| && refs[i] == x && FirstOfCode(refs, i)) &&
      (forall code :: HasCode(c, code) <==> HasCode(refs, code)) &&
      (forall k :: 0 <= k < |refs| && refs[k].subjectCode.None? ==> refs[k] in c)
  {
    CollectedDistinctCodes(refs);
    forall x | x in Collected(refs) ensures exists i :: 0 <= i < |refs| && refs[i] == x && FirstOfCode(refs, i) {
      CollectedKeepsFirst(refs, x);
    }
    forall code ensures HasCode(Collected(refs), code) <==> HasCode(refs, code) {
      CollectedCodes(refs, code);
    }
    forall k | 0 <= k < |refs| && refs[k].subjectCode.None? ensures refs[k] in Collected(refs) {
      CollectedKeepsNaN(refs, k);
    }
  }

  /**
   * `current_reffereds` holds no numeric code twice, keeps the first subject
   * of each code in the order of `resultData`, misses no numeric code of any
   * result, and keeps every subject whose code is NaN.
   */
  lemma CurrentReferredsFacts(api: ApiResponse)
    ensures var c := TransformOf(api).currentReffereds; var refs := AllReferreds(api);
      DistinctCodes(c) &&
      (forall x :: x in c ==> exists i :: 0 <= i < |refs| && refs[i] == x && FirstOfCode(refs, i)) &&
      (forall code :: HasCode(c, code) <==> HasCode(refs, code)) &&
      (forall k :: 0 <= k < |refs| && refs[k].subjectCode.None? ==> refs[k] in c)
  {
    assert TransformOf(api).currentReffereds == Collected(AllReferreds(api));
    CollectedFacts(AllReferreds(api));
  }

  /** The referred subjects of all results, in the order of `resultData`. */
  function AllReferreds(api: ApiResponse): seq<Referred> {
    Flatten(MapResults(api.resultData, ParseIntPrefix(api.instituteCode)))
  }

  /** A subject name "digits(...)" has the digits as its code. */
  lemma SubjectCodeOfDigits(digits: string, rest: string)
    requires |digits| > 0 && AllDigits(digits)
    ensures SubjectCode(digits + "(" + rest) == Some(DigitsValue(digits))
  {
    assert Lacks(digits, '(');
    LacksNoOccurrence(digits, "(", rest);
    SplitCons(digits, "(", rest);
    DigitStringParsesAsInt(digits);
  }
}
