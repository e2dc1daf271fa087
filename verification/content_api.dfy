/**
 * The content API: `POST /api/content` assembles the record of a notice,
 * routine or resource from the submitted form, and `GET /api/content` builds
 * the database query that selects what a user may see, newest first.
 */
module ContentApi {
  import opened Wrappers
  import opened Lists

  // ---------------------------------------------------------------------------
  // POST: assembling the record

  /** The submitted form: `formData.get(key)` is None for a missing field. */
  type FormData = map<string, string>

  function FormGet(form: FormData, key: string): Option<string> {
    if key in form then Some(form[key]) else None
  }

  /** JavaScript truthiness of a form field: present and not ''. */
  predicate Truthy(v: Option<string>) {
    v.Some? && v.value != ""
  }

  /** `value || fallback`. */
  function OrElse(v: Option<string>, fallback: string): string {
    if Truthy(v) then v.value else fallback
  }

  /** A JSON-valued field of the record: the literal `[]`, or what `JSON.parse` returned. */
  datatype Json<J> = EmptyArray | Parsed(value: J)

  datatype ContentData<J> = ContentData(
    title: Option<string>,
    contentType: Option<string>,
    targetSession: string,
    targetDepartment: string,
    createdBy: string,
    content: Option<string>,
    routineData: Json<J>,
    attachments: Json<J>)

  /** The record handed to the database, or the status and error the route answers with. */
  datatype PostResponse<J> = Created(data: ContentData<J>) | Rejected(status: nat, error: string)

  predicate IsRoutine(form: FormData) {
    FormGet(form, "contentType") == Some("routine")
  }

  /**
   * The text handed to `JSON.parse` for a routine: a missing field is
   * coerced to the text "null", which parses.
   */
  function RoutineText(form: FormData): string {
    FormGet(form, "routineData").GetOr("null")
  }

  predicate AttachmentsGiven(form: FormData) {
    Truthy(FormGet(form, "attachments"))
  }

  predicate RoutineParses<J>(form: FormData, parse: string -> Option<J>) {
    IsRoutine(form) ==> parse(RoutineText(form)).Some?
  }

  predicate AttachmentsParse<J>(form: FormData, parse: string -> Option<J>) {
    AttachmentsGiven(form) ==> parse(form["attachments"]).Some?
  }

  /**
   * `POST /api/content` up to the database call: `user` is the e-mail of
   * the signed-in user, `parse` is `JSON.parse` (None where it throws).
   * Routine data is checked before attachments; a record is created exactly
   * when the user is signed in and every JSON field that is read parses.
   */
  method Post<J>(user: Option<string>, form: FormData, parse: string -> Option<J>) returns (r: PostResponse<J>)
    ensures user.None? ==> r == Rejected(401, "Not authenticated")
    ensures user.Some? && !RoutineParses(form, parse) ==> r == Rejected(400, "Invalid routine data format")
    ensures user.Some? && RoutineParses(form, parse) && !AttachmentsParse(form, parse) ==>
      r == Rejected(400, "Invalid attachments format")
    ensures r.Created? <==> user.Some? && RoutineParses(form, parse) && AttachmentsParse(form, parse)
    ensures r.Created? ==> r.data.title == FormGet(form, "title") && r.data.contentType == FormGet(form, "contentType")
    ensures r.Created? ==> r.data.createdBy == user.value
    ensures r.Created? ==> r.data.targetSession != "" && r.data.targetDepartment != ""
    ensures r.Created? && Truthy(FormGet(form, "targetSession")) ==> r.data.targetSession == form["targetSession"]
    ensures r.Created? && !Truthy(FormGet(form, "targetSession")) ==> r.data.targetSession == "All"
    ensures r.Created? && Truthy(FormGet(form, "targetDepartment")) ==> r.data.targetDepartment == form["targetDepartment"]
    ensures r.Created? && !Truthy(FormGet(form, "targetDepartment")) ==> r.data.targetDepartment == "All"
    ensures r.Created? && IsRoutine(form) ==>
      r.data.content == Some("") && r.data.routineData == Parsed(parse(RoutineText(form)).value)
    ensures r.Created? && !IsRoutine(form) ==>
      r.data.content == FormGet(form, "content") && r.data.routineData == EmptyArray
    ensures r.Created? && AttachmentsGiven(form) ==> r.data.attachments == Parsed(parse(form["attachments"]).value)
    ensures r.Created? && !AttachmentsGiven(form) ==> r.data.attachments == EmptyArray
  {
    if user.None? {
      return Rejected(401, "Not authenticated");
    }
    var contentData := ContentData(
      FormGet(form, "title"),
      FormGet(form, "contentType"),
      OrElse(FormGet(form, "targetSession"), "All"),
      OrElse(FormGet(form, "targetDepartment"), "All"),
      user.value,
      None, EmptyArray, EmptyArray);

    if contentData.contentType == Some("routine") {
      var routineData := parse(FormGet(form, "routineData").GetOr("null"));
      if routineData.None? {
        return Rejected(400, "Invalid routine data format");
      }
      contentData := contentData.(routineData := Parsed(routineData.value));
      contentData := contentData.(content := Some(""));
    } else {
      contentData := contentData.(content := FormGet(form, "content"));
      contentData := contentData.(routineData := EmptyArray);
    }

    var attachmentsStr := FormGet(form, "attachments");
    if attachmentsStr.Some? && attachmentsStr.value != "" {
      var attachments := parse(attachmentsStr.value);
      if attachments.None? {
        return Rejected(400, "Invalid attachments format");
      }
      contentData := contentData.(attachments := Parsed(attachments.value));
    } else {
      contentData := contentData.(attachments := EmptyArray);
    }
    r := Created(contentData);
  }

  // ---------------------------------------------------------------------------
  // GET: the query and what it selects

  /** The signed-in user as the session describes them. */
  datatype SessionUser = SessionUser(userType: string, session: string, department: string)

  /** A stored content record, reduced to the fields the query looks at. */
  datatype ContentItem = ContentItem(contentType: string, targetSession: string, targetDepartment: string, createdAt: int)

  /** The academic session and department a student's query is restricted to. */
  datatype Audience = Audience(session: string, department: string)

  /** The query object: each present field is one condition. */
  datatype Query = Query(contentType: Option<string>, targetDepartment: Option<string>, audience: Option<Audience>)

  /** An item is meant for a student when it targets their session or 'All', and their department or 'All'. */
  predicate Visible(a: Audience, item: ContentItem) {
    (item.targetSession == a.session || item.targetSession == "All") &&
    (item.targetDepartment == a.department || item.targetDepartment == "All")
  }

  /** The database's reading of the query. */
  predicate Matches(q: Query, item: ContentItem) {
    (q.contentType.Some? ==> item.contentType == q.contentType.value) &&
    (q.targetDepartment.Some? ==> item.targetDepartment == q.targetDepartment.value) &&
    (q.audience.Some? ==> Visible(q.audience.value, item))
  }

  /** A search parameter restricts the query when it is given, not '' and not 'all'. */
  predicate Selective(param: Option<string>) {
    Truthy(param) && param.value != "all"
  }

  /** What the query is meant to select, written directly. */
  predicate Wanted(user: SessionUser, typeParam: Option<string>, departmentParam: Option<string>, item: ContentItem) {
    (Selective(typeParam) ==> item.contentType == typeParam.value) &&
    (Selective(departmentParam) ==> item.targetDepartment == departmentParam.value) &&
    (user.userType == "student" ==> Visible(Audience(user.session, user.department), item))
  }

  /**
   * The query `GET` builds field by field: it selects exactly the items of
   * the requested type and department (when those are given and not 'all'),
   * and for a student only the items visible to them.
   */
  method BuildQuery(user: SessionUser, typeParam: Option<string>, departmentParam: Option<string>) returns (q: Query)
    ensures forall item :: Matches(q, item) <==> Wanted(user, typeParam, departmentParam, item)
    ensures !Selective(typeParam) && !Selective(departmentParam) && user.userType != "student" ==>
      forall item :: Matches(q, item)
  {
    q := Query(None, None, None);
    if typeParam.Some? && typeParam.value != "" && typeParam.value != "all" {
      q := q.(contentType := typeParam);
    }
    if departmentParam.Some? && departmentParam.value != "" && departmentParam.value != "all" {
      q := q.(targetDepartment := departmentParam);
    }
    if user.userType == "student" {
      q := q.(audience := Some(Audience(user.session, user.department)));
    }
  }

  /** At most this many records are returned. */
  const Limit: nat := 50

  /** `sort({ createdAt: -1 })`: ascending in this key is newest first. */
  function NewestFirst(item: ContentItem): int {
    -item.createdAt
  }

  function Matching(q: Query): ContentItem -> bool {
    item => Matches(q, item)
  }

  /** `Content.find(query).sort({ createdAt: -1 }).limit(50)` over the stored records. */
  function Find(stored: seq<ContentItem>, q: Query): seq<ContentItem> {
    var sorted := SortBy(Filter(stored, Matching(q)), NewestFirst);
    if |sorted| <= Limit then sorted else sorted[..Limit]
  }

  /**
   * The records found: at most 50 stored records that match, newest first;
   * all matching records when there are no more than 50, and otherwise none
   * left out is newer than the last one returned.
   */
  lemma FindFacts(stored: seq<ContentItem>, q: Query)
    ensures var r := Find(stored, q);
      |r| <= Limit &&
      (forall x :: x in r ==> x in stored && Matches(q, x)) &&
      SortedBy(r, NewestFirst) &&
      (|Filter(stored, Matching(q))| <= Limit ==> multiset(r) == multiset(Filter(stored, Matching(q))))
    ensures forall x :: x in stored && Matches(q, x) && x !in Find(stored, q) ==> LeftOutIsOlder(Find(stored, q), x)
  {
    var matching := Filter(stored, Matching(q));
    var sorted := SortBy(matching, NewestFirst);
    var r := Find(stored, q);
    forall x | x in r ensures x in stored && Matches(q, x) {
      assert x in sorted;
      assert x in multiset(sorted);
      assert x in matching;
    }
    forall x | x in stored && Matches(q, x) && x !in r ensures LeftOutIsOlder(r, x) {
      assert x in matching;
      assert x in multiset(matching);
      assert x in sorted;
      var i :| 0 <= i < |sorted| && sorted[i] == x;
      assert |sorted| > Limit && r == sorted[..Limit];
      assert i >= Limit;
      assert NewestFirst(sorted[Limit - 1]) <= NewestFirst(sorted[i]);
    }
  }

  /** The list is full and its last record is at least as new as `x`. */
  predicate LeftOutIsOlder(r: seq<ContentItem>, x: ContentItem) {
    |r| == Limit && r[Limit - 1].createdAt >= x.createdAt
  }

  /** What `GET /api/content` answers. */
  datatype ListResponse = NotAuthenticated | Listed(items: seq<ContentItem>)

  /**
   * `GET /api/content`: 401 without a session; otherwise at most 50 stored
   * records, newest first, each of the requested type and department and,
   * for a student, visible to them. A wanted record is left out only when
   * the list is full and its last record is at least as new, so every wanted
   * record is listed when fewer than 50 come back.
   */
  method List(session: Option<SessionUser>, typeParam: Option<string>, departmentParam: Option<string>, stored: seq<ContentItem>)
    returns (r: ListResponse)
    ensures session.None? <==> r == NotAuthenticated
    ensures r.Listed? ==> |r.items| <= Limit && SortedBy(r.items, NewestFirst)
    ensures r.Listed? ==> forall x :: x in r.items ==> x in stored && Wanted(session.value, typeParam, departmentParam, x)
    ensures r.Listed? && session.value.userType == "student" ==>
      forall x :: x in r.items ==> Visible(Audience(session.value.session, session.value.department), x)
    ensures r.Listed? ==> forall x :: x in stored && Wanted(session.value, typeParam, departmentParam, x) && x !in r.items ==>
      LeftOutIsOlder(r.items, x)
  {
    if session.None? {
      return NotAuthenticated;
    }
    var query := BuildQuery(session.value, typeParam, departmentParam);
    FindFacts(stored, query);
    r := Listed(Find(stored, query));
  }
}
