/**
 * The student profile API: `GET` reads a student's record and fills the
 * fields a record may lack with defaults; `PUT` writes only the contact
 * fields a student may edit and answers with the refreshed profile.
 */
module ProfileApi {
  import opened Wrappers

  /**
   * A stored student. A field the record lacks, or holds as '' (or 0 for
   * the regulation), is falsy for the `||` defaults and is written that way.
   */
  datatype Student = Student(
    name: string,
    studentId: string,
    session: string,
    department: string,
    regulation: int,
    phone: string,
    address: string,
    guardianName: string,
    guardianPhone: string,
    profileImage: string)

  /** The profile object both routes answer with. */
  datatype Profile = Profile(
    name: string,
    studentId: string,
    session: string,
    department: string,
    regulation: int,
    phone: string,
    address: string,
    guardianName: string,
    guardianPhone: string,
    profileImage: string)

  const DefaultDepartment: string := "Survey Technology"
  const DefaultRegulation: int := 2022

  /**
   * The profile of a stored student: the identity fields as stored, the
   * department and regulation with their defaults, and '' for missing
   * contact fields.
   */
  function ProfileOf(s: Student): (p: Profile)
    ensures p.name == s.name && p.studentId == s.studentId && p.session == s.session
    ensures p.department != "" && p.regulation != 0
    ensures s.department != "" ==> p.department == s.department
    ensures s.department == "" ==> p.department == DefaultDepartment
    ensures s.regulation != 0 ==> p.regulation == s.regulation
    ensures s.regulation == 0 ==> p.regulation == DefaultRegulation
    ensures p.phone == s.phone && p.address == s.address && p.profileImage == s.profileImage
    ensures p.guardianName == s.guardianName && p.guardianPhone == s.guardianPhone
  {
    Profile(
      s.name, s.studentId, s.session,
      if s.department != "" then s.department else DefaultDepartment,
      if s.regulation != 0 then s.regulation else DefaultRegulation,
      s.phone, s.address, s.guardianName, s.guardianPhone, s.profileImage)
  }

  /** What either route answers. */
  datatype ProfileResponse = NotAuthenticated | StudentNotFound | Found(profile: Profile)

  /** The stored students, by student id. */
  type Students = map<string, Student>

  /**
   * `GET /api/student/profile`: `email` is the session user's e-mail (None
   * without a session), which holds the student id.
   */
  function GetProfile(email: Option<string>, students: Students): (r: ProfileResponse)
    ensures email.None? <==> r == NotAuthenticated
    ensures email.Some? && email.value !in students <==> r == StudentNotFound
    ensures r.Found? ==> r.profile == ProfileOf(students[email.value])
  {
    if email.None? then NotAuthenticated
    else if email.value !in students then StudentNotFound
    else Found(ProfileOf(students[email.value]))
  }

  // ---------------------------------------------------------------------------
  // PUT

  /** The only fields a student may change. */
  const AllowedFields: seq<string> := ["phone", "address", "guardianName", "guardianPhone", "profileImage"]

  /**
   * `Object.keys(data).filter(allowed).reduce(...)`: the request's entries,
   * visited in key order, with every key outside the allowed fields dropped.
   */
  function UpdateData(keys: seq<string>, data: map<string, string>): (u: map<string, string>)
    requires forall k :: k in keys ==> k in data
    ensures forall k :: k in u ==> k in AllowedFields
    decreases |keys|
  {
    if |keys| == 0 then map[]
    else
      var u := UpdateData(keys[..|keys| - 1], data);
      var key := keys[|keys| - 1];
      if key in AllowedFields then u[key := data[key]] else u
  }

  /**
   * Folding over the request's own keys gives exactly the request restricted
   * to the allowed fields.
   */
  lemma {:induction false} UpdateDataIsRestriction(keys: seq<string>, data: map<string, string>)
    requires forall k :: k in keys ==> k in data
    ensures forall k :: k in UpdateData(keys, data) <==> k in keys && k in AllowedFields
    ensures forall k :: k in UpdateData(keys, data) ==> UpdateData(keys, data)[k] == data[k]
    decreases |keys|
  {
    if |keys| > 0 {
      var init := keys[..|keys| - 1];
      UpdateDataIsRestriction(init, data);
      assert forall k :: k in keys <==> k in init || k == keys[|keys| - 1];
    }
  }

  /** `$set: updateData`: each allowed field present in the update is overwritten. */
  function ApplySet(s: Student, u: map<string, string>): Student {
    s.(phone := if "phone" in u then u["phone"] else s.phone)
     .(address := if "address" in u then u["address"] else s.address)
     .(guardianName := if "guardianName" in u then u["guardianName"] else s.guardianName)
     .(guardianPhone := if "guardianPhone" in u then u["guardianPhone"] else s.guardianPhone)
     .(profileImage := if "profileImage" in u then u["profileImage"] else s.profileImage)
  }

  /** The answer of `PUT` and the students stored afterwards. */
  datatype PutOutcome = PutOutcome(response: ProfileResponse, students: Students)

  /**
   * `PUT /api/student/profile` with the request's keys and values: 401 and
   * 404 change nothing; otherwise only the signed-in student's record
   * changes, and the answer is its new profile.
   */
  function PutProfile(email: Option<string>, students: Students, keys: seq<string>, data: map<string, string>): (r: PutOutcome)
    requires forall k :: k in keys ==> k in data
    ensures email.None? <==> r.response == NotAuthenticated
    ensures email.Some? && email.value !in students <==> r.response == StudentNotFound
    ensures !r.response.Found? ==> r.students == students
    ensures r.response.Found? ==>
      r.students.Keys == students.Keys &&
      (forall id :: id in students && id != email.value ==> r.students[id] == students[id]) &&
      r.response.profile == ProfileOf(r.students[email.value])
  {
    if email.None? then PutOutcome(NotAuthenticated, students)
    else
      var updateData := UpdateData(keys, data);
      if email.value !in students then PutOutcome(StudentNotFound, students)
      else
        var updated := ApplySet(students[email.value], updateData);
        PutOutcome(Found(ProfileOf(updated)), students[email.value := updated])
  }

  /**
   * Whatever the request holds, `PUT` never changes a student's name, id,
   * session, department or regulation.
   */
  lemma PutKeepsIdentity(email: Option<string>, students: Students, keys: seq<string>, data: map<string, string>)
    requires forall k :: k in keys ==> k in data
    requires email.Some? && email.value in students
    ensures var before := students[email.value];
      var after := PutProfile(email, students, keys, data).students[email.value];
      after.name == before.name && after.studentId == before.studentId && after.session == before.session &&
      after.department == before.department && after.regulation == before.regulation
  {
  }

  /**
   * `PUT` writes each allowed field the request carries and keeps every
   * other contact field as it was.
   */
  lemma PutWritesAllowed(email: Option<string>, students: Students, keys: seq<string>, data: map<string, string>)
    requires forall k :: k in keys ==> k in data
    requires email.Some? && email.value in students
    ensures var before := students[email.value];
      var after := PutProfile(email, students, keys, data).students[email.value];
      after.phone == (if "phone" in keys then data["phone"] else before.phone) &&
      after.address == (if "address" in keys then data["address"] else before.address) &&
      after.guardianName == (if "guardianName" in keys then data["guardianName"] else before.guardianName) &&
      after.guardianPhone == (if "guardianPhone" in keys then data["guardianPhone"] else before.guardianPhone) &&
      after.profileImage == (if "profileImage" in keys then data["profileImage"] else before.profileImage)
  {
    UpdateDataIsRestriction(keys, data);
  }
}
