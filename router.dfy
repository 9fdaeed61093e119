/** The request dispatch of src/server.c: which handler a request reaches,
    or which status the router answers itself, as a function of the request
    method, the path and the query string. */
module Router {
  import opened Wrappers
  import opened Text

  /** Where a request ends up. The handler tags name the handler functions
      of src/handlers.c; the last four are answered by the router itself. */
  datatype Endpoint =
    | Ping
    | CourseList | CourseAdd | CourseUpdate | CourseRemove | CourseRemoveAll
    | CourseFindById | CourseFindByName | CourseFindByType | CourseFindBySemester
    | StudentList | StudentAdd | StudentUpdate | StudentRemove | StudentRemoveAll
    | StudentFindById | StudentFindByName
    | EnrollmentList | EnrollmentAdd | EnrollmentRemove | EnrollmentRemoveAll
    | EnrollmentFindByStudent | EnrollmentFindByCourse
    | Preflight
    | MethodNotAllowed(allow: string)
    | BadRequest(message: string)
    | NotFound
  {
    predicate IsHandler() {
      !(Preflight? || MethodNotAllowed? || BadRequest? || NotFound?)
    }
  }

  /** The paths the router knows by exact comparison. */
  const KnownPaths: set<string> := {
    "/ping", "/course", "/course/all", "/course/add", "/course/update", "/course/find",
    "/student", "/student/all", "/student/add", "/student/update", "/student/find",
    "/enrollment", "/enrollment/all"
  }

  /** The two search paths, which answer 400 rather than 405 to other methods. */
  const FindPaths: set<string> := {"/course/find", "/student/find"}

  /** The methods a path dispatches on, in the order the Allow header lists them. */
  function AllowedMethods(path: string): seq<string> {
    if path == "/course" || path == "/student" then ["GET", "POST", "PUT", "DELETE"]
    else if path == "/enrollment" then ["GET", "POST", "DELETE"]
    else if path in {"/course/all", "/student/all", "/enrollment/all"} then ["DELETE"]
    else if path in {"/course/add", "/student/add"} then ["POST"]
    else if path in {"/course/update", "/student/update"} then ["PUT"]
    else if path in FindPaths then ["GET"]
    else []
  }

  function JoinComma(ms: seq<string>): string {
    if ms == [] then ""
    else if |ms| == 1 then ms[0]
    else ms[0] + ", " + JoinComma(ms[1..])
  }

  /** The HTTP method a handler tag is reached with. */
  function HandlerMethod(e: Endpoint): string
    requires e.IsHandler() && !e.Ping?
  {
    match e
    case CourseList | StudentList | EnrollmentList => "GET"
    case CourseFindById | CourseFindByName | CourseFindByType | CourseFindBySemester => "GET"
    case StudentFindById | StudentFindByName => "GET"
    case EnrollmentFindByStudent | EnrollmentFindByCourse => "GET"
    case CourseAdd | StudentAdd | EnrollmentAdd => "POST"
    case CourseUpdate | StudentUpdate => "PUT"
    case CourseRemove | StudentRemove | EnrollmentRemove => "DELETE"
    case CourseRemoveAll | StudentRemoveAll | EnrollmentRemoveAll => "DELETE"
  }

  /** The status the router itself answers with, for the endpoints it
      answers without calling a handler. */
  function RouterStatus(e: Endpoint): nat
    requires !e.IsHandler()
  {
    match e
    case Preflight => 200
    case MethodNotAllowed(_) => 405
    case BadRequest(_) => 400
    case NotFound => 404
  }

  /** The search handler for GET /course/find: the first of "id=", "name=",
      "type=", "semester=" that occurs anywhere in the query string wins. */
  function CourseFind(qs: string): Endpoint {
    if Contains(qs, "id=") then CourseFindById
    else if Contains(qs, "name=") then CourseFindByName
    else if Contains(qs, "type=") then CourseFindByType
    else if Contains(qs, "semester=") then CourseFindBySemester
    else BadRequest("missing find parameter")
  }

  function StudentFind(qs: string): Endpoint {
    if Contains(qs, "student_id=") then StudentFindById
    else if Contains(qs, "name=") then StudentFindByName
    else BadRequest("missing find parameter")
  }

  function EnrollmentGet(qs: string): Endpoint {
    if Contains(qs, "student_id=") then EnrollmentFindByStudent
    else if Contains(qs, "course_id=") then EnrollmentFindByCourse
    else EnrollmentList
  }

  /** `request_handler`: `verb` is the request method, `path` the
      decoded path, `query` the raw query string when the request has one. */
  function Route(verb: string, path: string, query: Option<string>): Endpoint {
    var qs := query.GetOr("");
    if verb == "OPTIONS" then Preflight
    else if path == "/ping" then Ping
    else if path == "/course" then
      if verb == "GET" then CourseList
      else if verb == "POST" then CourseAdd
      else if verb == "PUT" then CourseUpdate
      else if verb == "DELETE" then CourseRemove
      else MethodNotAllowed("GET, POST, PUT, DELETE")
    else if path == "/course/all" then
      if verb == "DELETE" then CourseRemoveAll else MethodNotAllowed("DELETE")
    else if path == "/course/add" then
      if verb == "POST" then CourseAdd else MethodNotAllowed("POST")
    else if path == "/course/update" then
      if verb == "PUT" then CourseUpdate else MethodNotAllowed("PUT")
    else if path == "/course/find" then
      if verb == "GET" then CourseFind(qs) else BadRequest("missing find parameter")
    else if path == "/student" then
      if verb == "POST" then StudentAdd
      else if verb == "GET" then StudentList
      else if verb == "PUT" then StudentUpdate
      else if verb == "DELETE" then StudentRemove
      else MethodNotAllowed("GET, POST, PUT, DELETE")
    else if path == "/student/all" then
      if verb == "DELETE" then StudentRemoveAll else MethodNotAllowed("DELETE")
    else if path == "/student/add" then
      if verb == "POST" then StudentAdd else MethodNotAllowed("POST")
    else if path == "/student/update" then
      if verb == "PUT" then StudentUpdate else MethodNotAllowed("PUT")
    else if path == "/student/find" then
      if verb == "GET" then StudentFind(qs) else BadRequest("missing find parameter")
    else if path == "/enrollment" then
      if verb == "POST" then EnrollmentAdd
      else if verb == "GET" then EnrollmentGet(qs)
      else if verb == "DELETE" then EnrollmentRemove
      else MethodNotAllowed("GET, POST, DELETE")
    else if path == "/enrollment/all" then
      if verb == "DELETE" then EnrollmentRemoveAll else MethodNotAllowed("DELETE")
    else NotFound
  }

  /** A preflight is answered on every path. */
  lemma PreflightEverywhere(path: string, query: Option<string>)
    ensures Route("OPTIONS", path, query) == Preflight
  {
  }

  /** Every other method gets 404 exactly on the paths the router does not know. */
  lemma NotFoundExactly(verb: string, path: string, query: Option<string>)
    ensures Route(verb, path, query) == NotFound <==> verb != "OPTIONS" && path !in KnownPaths
  {
  }

  /** A handler is only reached with the method it serves. */
  lemma HandlerMethodMatches(verb: string, path: string, query: Option<string>)
    ensures var r := Route(verb, path, query);
      r.IsHandler() && !r.Ping? ==> verb == HandlerMethod(r)
  {
  }

  /** The status line the router writes itself. */
  function Status(verb: string, path: string, query: Option<string>): (r: Option<nat>)
    ensures r.Some? <==> !Route(verb, path, query).IsHandler()
    ensures r == Some(200) <==> verb == "OPTIONS"
  {
    var e := Route(verb, path, query);
    if e.IsHandler() then None else Some(RouterStatus(e))
  }

  /** /ping answers every method but OPTIONS. */
  lemma PingAnyMethod(verb: string, query: Option<string>)
    ensures Route(verb, "/ping", query) == (if verb == "OPTIONS" then Preflight else Ping)
  {
  }

  /** On a path other than the two search paths and /ping, a 405 is
      answered exactly when the method is not one the path dispatches on. */
  lemma MethodNotAllowedExactly(verb: string, path: string, query: Option<string>)
    requires path in KnownPaths - FindPaths - {"/ping"} && verb != "OPTIONS"
    ensures Route(verb, path, query).MethodNotAllowed? <==> verb !in AllowedMethods(path)
  {
  }

  /** The Allow header of a 405 lists the methods the path dispatches on. */
  lemma AllowHeaderLists(verb: string, path: string, query: Option<string>)
    requires Route(verb, path, query).MethodNotAllowed?
    ensures Route(verb, path, query).allow == JoinComma(AllowedMethods(path))
  {
    JoinedLists();
    if path !in {"/course", "/student", "/enrollment"} {
      assert JoinComma(AllowedMethods(path)) == AllowedMethods(path)[0];
    }
  }

  lemma JoinedLists()
    ensures JoinComma(["GET", "POST", "PUT", "DELETE"]) == "GET, POST, PUT, DELETE"
    ensures JoinComma(["GET", "POST", "DELETE"]) == "GET, POST, DELETE"
  {
    JoinedFour();
    JoinedThree();
  }

  lemma JoinedFour()
    ensures JoinComma(["GET", "POST", "PUT", "DELETE"]) == "GET, POST, PUT, DELETE"
  {
    JoinCons("PUT", ["DELETE"]);
    assert ["PUT"] + ["DELETE"] == ["PUT", "DELETE"];
    assert JoinComma(["PUT", "DELETE"]) == "PUT, DELETE";
    JoinCons("POST", ["PUT", "DELETE"]);
    assert ["POST"] + ["PUT", "DELETE"] == ["POST", "PUT", "DELETE"];
    assert JoinComma(["POST", "PUT", "DELETE"]) == "POST, PUT, DELETE";
    JoinCons("GET", ["POST", "PUT", "DELETE"]);
    assert ["GET"] + ["POST", "PUT", "DELETE"] == ["GET", "POST", "PUT", "DELETE"];
  }

  lemma JoinedThree()
    ensures JoinComma(["GET", "POST", "DELETE"]) == "GET, POST, DELETE"
  {
    JoinCons("POST", ["DELETE"]);
    assert ["POST"] + ["DELETE"] == ["POST", "DELETE"];
    assert JoinComma(["POST", "DELETE"]) == "POST, DELETE";
    JoinCons("GET", ["POST", "DELETE"]);
    assert ["GET"] + ["POST", "DELETE"] == ["GET", "POST", "DELETE"];
  }

  lemma JoinCons(m: string, rest: seq<string>)
    requires rest != []
    ensures JoinComma([m] + rest) == m + ", " + JoinComma(rest)
  {
    assert ([m] + rest)[1..] == rest;
  }

  /** The search paths answer 400 to every verb but GET and OPTIONS, and
      never 405. */
  lemma FindPathsNeverMethodNotAllowed(verb: string, path: string, query: Option<string>)
    requires path in FindPaths
    ensures !Route(verb, path, query).MethodNotAllowed?
    ensures verb != "GET" && verb != "OPTIONS" ==> Route(verb, path, query) == BadRequest("missing find parameter")
  {
  }

  /** /course and /student map GET, POST, PUT and DELETE to list, add,
      update and remove. */
  lemma CrudPaths(query: Option<string>)
    ensures Route("GET", "/course", query) == CourseList && Route("GET", "/student", query) == StudentList
    ensures Route("POST", "/course", query) == CourseAdd && Route("POST", "/student", query) == StudentAdd
    ensures Route("PUT", "/course", query) == CourseUpdate && Route("PUT", "/student", query) == StudentUpdate
    ensures Route("DELETE", "/course", query) == CourseRemove && Route("DELETE", "/student", query) == StudentRemove
  {
  }

  /** A query mentioning "course_id=" reaches find-by-id on /course/find,
      whatever other parameter it carries, because "id=" occurs inside it. */
  lemma CourseIdGoesToFindById(qs: string, i: int)
    requires OccursAt(qs, "course_id=", i)
    ensures Route("GET", "/course/find", Some(qs)) == CourseFindById
  {
    assert qs[i + 7..i + 10] == "id=";
    ContainsAt(qs, "id=", i + 7);
  }

  /** Find-by-name on /course/find is reached exactly when "name=" occurs
      and "id=" does not. */
  lemma CourseFindByNameExactly(qs: string)
    ensures Route("GET", "/course/find", Some(qs)) == CourseFindByName
            <==> !Contains(qs, "id=") && Contains(qs, "name=")
  {
  }

  /** A query with "student_id=" on /student/find searches by id, even
      when it also has "name=". */
  lemma StudentIdTakesPrecedence(qs: string)
    ensures Contains(qs, "student_id=") ==> Route("GET", "/student/find", Some(qs)) == StudentFindById
    ensures Route("GET", "/student/find", Some(qs)) == StudentFindByName
            <==> !Contains(qs, "student_id=") && Contains(qs, "name=")
  {
  }

  /** GET /enrollment: by student if "student_id=" occurs, else by course
      if "course_id=" occurs, else the whole list; a request without a
      query string lists. */
  lemma EnrollmentGetOrder(query: Option<string>)
    ensures var qs := query.GetOr("");
      Route("GET", "/enrollment", query) ==
        if Contains(qs, "student_id=") then EnrollmentFindByStudent
        else if Contains(qs, "course_id=") then EnrollmentFindByCourse
        else EnrollmentList
    ensures query.None? ==> Route("GET", "/enrollment", query) == EnrollmentList
  {
    if query.None? {
      assert !Contains("", "student_id=");
      assert !Contains("", "course_id=");
    }
  }
}
