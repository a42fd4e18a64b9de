/**
 * The bulk family upload: for each submitted family, parents are found by
 * email or created; the students already linked to those parents form a
 * sibling cache; students are found by email, else by a case-insensitive
 * first + last name match in that cache, else created; each student is
 * enrolled in their own courses and linked to every parent; every parent is
 * enrolled in the de-duplicated union of the children's courses; the
 * family's messages are reduced to one status and shown under a family
 * name. After all families, a shadow profile row is upserted for every
 * processed account and duplicated shadow rows are merged.
 *
 * The helpers of the plugin library that the page calls (students of a
 * parent, course enrolment, parent-role assignment, generated student
 * email, merging shadow rows) are parameters whose behaviour is not known.
 */
module BulkFamilies {
  import opened Text

  type UserId = nat
  type CourseId = int
  type RoleId = int

  /** An account of the user table, with the fields this page reads. */
  datatype User = User(id: UserId, firstname: string, lastname: string, email: string)

  /** A notification message. The page's own messages name the account;
      messages produced by the library helpers are opaque text. */
  datatype Message =
    | AccountCreated(user: User)
    | AccountAlreadyExists(user: User)
    | NoCoursesFound(user: User)
    | HelperText(text: string)

  /** The three message lists of a family, or of one helper call. */
  datatype Messages = Messages(successes: seq<Message>, warnings: seq<Message>, errors: seq<Message>) {
    /** Appending another result's lists, as the page's `array_push(..., ...$r->x)` does. */
    function Then(other: Messages): Messages {
      Messages(successes + other.successes, warnings + other.warnings, errors + other.errors)
    }
  }

  const NoMessages := Messages([], [], [])

  function Succeeded(m: Message): Messages { Messages([m], [], []) }
  function Warned(m: Message): Messages { Messages([], [m], []) }
  function Failed(m: Message): Messages { Messages([], [], [m]) }

  datatype Status = Success | Warning | Error

  function Severity(s: Status): nat {
    match s
    case Success => 0
    case Warning => 1
    case Error => 2
  }

  /** The overall status of a family: error if any error message exists,
      otherwise warning if any warning exists, otherwise success. */
  function StatusOf(m: Messages): (st: Status)
    ensures st == Error <==> |m.errors| > 0
    ensures st == Warning <==> |m.errors| == 0 && |m.warnings| > 0
    ensures st == Success <==> |m.errors| == 0 && |m.warnings| == 0
  {
    if |m.errors| > 0 then Error else if |m.warnings| > 0 then Warning else Success
  }

  /** The status of combined messages is the worse of the two statuses: a
      later step can raise a family's status but never lower it. */
  lemma StatusOfThen(a: Messages, b: Messages)
    ensures Severity(StatusOf(a.Then(b))) ==
      if Severity(StatusOf(a)) >= Severity(StatusOf(b)) then Severity(StatusOf(a)) else Severity(StatusOf(b))
  {
  }

  // ---------------------------------------------------------------------------
  // Input
  // ---------------------------------------------------------------------------

  datatype Name = Name(firstName: string, middleName: string, lastName: string)
  datatype ParentInput = ParentInput(name: Name, email: string, phone: string)
  /** A student; `email` is None when the form left it unset. */
  datatype StudentInput = StudentInput(name: Name, email: Option<string>, phone: string, courses: seq<CourseId>)
  datatype FamilyInput = FamilyInput(parents: seq<ParentInput>, students: seq<StudentInput>, partnership: string)

  /** A student without an email gets one generated from the first parent's,
      so such a student needs at least one parent in the family. */
  predicate StudentEmailsResolvable(f: FamilyInput) {
    forall k :: 0 <= k < |f.students| ==> f.students[k].email.None? ==> |f.parents| > 0
  }

  /** A family with neither parents nor students: the page throws on it. */
  predicate NoUsers(f: FamilyInput) {
    |f.parents| == 0 && |f.students| == 0
  }

  // ---------------------------------------------------------------------------
  // Logs of what the page asked the library and the database to do
  // ---------------------------------------------------------------------------

  datatype Enrolment = Enrolment(user: UserId, course: CourseId, role: RoleId)
  /** A parent-role assignment of `parent` relative to `student`. */
  datatype RoleLink = RoleLink(student: UserId, parent: UserId)
  /** An entry of `$created_users` / `$existing_users`: the account and the family's partnership. */
  datatype Resolved = Resolved(user: User, partnershipid: string)
  datatype Notification = Notification(familyname: string, messages: Messages, status: Status)

  /** The library helpers, unknown to this model. `studentsOfParent` reads the
      role assignments, so it is also given those made so far. */
  datatype Env = Env(
    studentsOfParent: (UserId, seq<RoleLink>) -> seq<User>,
    enrol: (User, CourseId, RoleId) -> Messages,
    assignParentRole: (User, User) -> Messages,
    generatedStudentEmail: (string, string) -> string,
    parentRole: RoleId,
    studentRole: RoleId)

  // ---------------------------------------------------------------------------
  // Sibling cache: PHP's `$a + $b` on arrays keyed by user id
  // ---------------------------------------------------------------------------

  function Ids(us: seq<User>): set<UserId> {
    set k | 0 <= k < |us| :: us[k].id
  }

  /** The first entry with user id `id`: what a keyed PHP array holds for it. */
  function Lookup(us: seq<User>, id: UserId): (r: Option<User>)
    ensures r.Some? <==> id in Ids(us)
  {
    if |us| == 0 then None else if us[0].id == id then Some(us[0]) else Lookup(us[1..], id)
  }

  lemma IdsConcat(a: seq<User>, b: seq<User>)
    ensures Ids(a + b) == Ids(a) + Ids(b)
  {
    forall id | id in Ids(a) + Ids(b)
      ensures id in Ids(a + b)
    {
      if id in Ids(a) {
        var k :| 0 <= k < |a| && a[k].id == id;
        assert (a + b)[k].id == id;
      } else {
        var k :| 0 <= k < |b| && b[k].id == id;
        assert (a + b)[|a| + k].id == id;
      }
    }
  }

  /** `$a + $b` keyed by user id: `a`, then the entries of `b` whose id is not yet present. */
  function KeyUnion(a: seq<User>, b: seq<User>): (r: seq<User>)
    ensures |r| >= |a| && r[..|a|] == a
    decreases |b|
  {
    if |b| == 0 then a
    else
      var r := KeyUnion(a, b[..|b| - 1]);
      var x := b[|b| - 1];
      if x.id in Ids(r) then r else r + [x]
  }

  /** The key union holds exactly the ids of both operands. */
  lemma {:induction false} KeyUnionIds(a: seq<User>, b: seq<User>)
    ensures Ids(KeyUnion(a, b)) == Ids(a) + Ids(b)
    decreases |b|
  {
    if |b| > 0 {
      var r := KeyUnion(a, b[..|b| - 1]);
      var x := b[|b| - 1];
      KeyUnionIds(a, b[..|b| - 1]);
      IdsConcat(b[..|b| - 1], [x]);
      assert b[..|b| - 1] + [x] == b;
      IdsConcat(r, [x]);
    }
  }

  lemma {:induction false} LookupAppend(a: seq<User>, x: User, id: UserId)
    ensures Lookup(a + [x], id) == if id in Ids(a) then Lookup(a, id) else if x.id == id then Some(x) else None
    decreases |a|
  {
    if |a| > 0 {
      assert (a + [x])[1..] == a[1..] + [x];
      assert a == [a[0]] + a[1..];
      IdsConcat([a[0]], a[1..]);
      LookupAppend(a[1..], x, id);
    } else {
      assert (a + [x])[1..] == [];
    }
  }

  /** The step of the key union that adds one entry of `b`. */
  lemma KeyUnionStep(a: seq<User>, b: seq<User>)
    requires |b| > 0
    ensures var x := b[|b| - 1];
      KeyUnion(a, b) == if x.id in Ids(KeyUnion(a, b[..|b| - 1])) then KeyUnion(a, b[..|b| - 1]) else KeyUnion(a, b[..|b| - 1]) + [x]
  {
  }

  /** On a user id present in both, the entry of `a` wins: the key union
      holds, for every id, the first entry of `a` followed by `b`. */
  lemma {:induction false} KeyUnionFirstWins(a: seq<User>, b: seq<User>, id: UserId)
    ensures Lookup(KeyUnion(a, b), id) == Lookup(a + b, id)
    decreases |b|
  {
    if |b| == 0 {
      assert a + b == a;
    } else {
      var b' := b[..|b| - 1];
      var x := b[|b| - 1];
      var r := KeyUnion(a, b');
      KeyUnionFirstWins(a, b', id);
      assert a + b == (a + b') + [x];
      LookupAppend(a + b', x, id);
      IdsConcat(a, b');
      KeyUnionIds(a, b');
      KeyUnionStep(a, b);
      if x.id !in Ids(r) {
        LookupAppend(r, x, id);
      }
    }
  }

  /** The sibling cache of a family: the key union of the existing students
      of each resolved parent, in parent order. */
  function SiblingCache(env: Env, parents: seq<User>, links: seq<RoleLink>): seq<User> {
    if |parents| == 0 then []
    else KeyUnion(SiblingCache(env, parents[..|parents| - 1], links), env.studentsOfParent(parents[|parents| - 1].id, links))
  }

  /** The sibling cache holds every existing student of every parent of the
      family, and no one else. */
  lemma {:induction false} SiblingCacheIds(env: Env, parents: seq<User>, links: seq<RoleLink>, id: UserId)
    ensures id in Ids(SiblingCache(env, parents, links)) <==>
      exists k :: 0 <= k < |parents| && id in Ids(env.studentsOfParent(parents[k].id, links))
    decreases |parents|
  {
    if |parents| > 0 {
      var init := parents[..|parents| - 1];
      SiblingCacheIds(env, init, links, id);
      KeyUnionIds(SiblingCache(env, init, links), env.studentsOfParent(parents[|parents| - 1].id, links));
      assert forall k :: 0 <= k < |init| ==> init[k] == parents[k];
    }
  }

  // ---------------------------------------------------------------------------
  // Name match against the sibling cache (`strcasecmp` on both names)
  // ---------------------------------------------------------------------------

  predicate SameName(u: User, first: string, last: string) {
    EqualsIgnoreCase(first, u.firstname) && EqualsIgnoreCase(last, u.lastname)
  }

  /** The index of the first cache entry whose first and last names match. */
  function FirstNameMatch(cache: seq<User>, first: string, last: string): (r: Option<nat>)
    ensures r.Some? ==> (r.value < |cache| && SameName(cache[r.value], first, last)
      && forall k :: 0 <= k < r.value ==> !SameName(cache[k], first, last))
    ensures r.None? ==> forall k :: 0 <= k < |cache| ==> !SameName(cache[k], first, last)
  {
    if |cache| == 0 then None
    else if SameName(cache[0], first, last) then Some(0)
    else match FirstNameMatch(cache[1..], first, last)
      case None => None
      case Some(k) => Some(k + 1)
  }

  /** The `foreach ... break` over the sibling cache: the first entry whose
      names match, ignoring ASCII case. */
  method MatchSibling(cache: seq<User>, first: string, last: string) returns (r: Option<User>)
    ensures r.Some? ==> (exists k :: (0 <= k < |cache| && r.value == cache[k] && SameName(cache[k], first, last)
                                       && forall m :: 0 <= m < k ==> !SameName(cache[m], first, last)))
    ensures r.None? <==> forall k :: 0 <= k < |cache| ==> !SameName(cache[k], first, last)
    ensures r == match FirstNameMatch(cache, first, last) { case None => None case Some(k) => Some(cache[k]) }
  {
    r := None;
    for i := 0 to |cache|
      invariant forall k :: 0 <= k < i ==> !SameName(cache[k], first, last)
    {
      var sofp := cache[i];
      if EqualsIgnoreCase(first, sofp.firstname) && EqualsIgnoreCase(last, sofp.lastname) {
        r := Some(sofp);
        return;
      }
    }
  }

  // ---------------------------------------------------------------------------
  // Courses, enrolments and role links
  // ---------------------------------------------------------------------------

  /** `array_merge` of every student's course list, in student order. */
  function AllCourses(ss: seq<StudentInput>): seq<CourseId> {
    if |ss| == 0 then [] else AllCourses(ss[..|ss| - 1]) + ss[|ss| - 1].courses
  }

  lemma AllCoursesSnoc(ss: seq<StudentInput>, s: StudentInput)
    ensures AllCourses(ss + [s]) == AllCourses(ss) + s.courses
  {
    assert (ss + [s])[..|ss|] == ss;
  }

  /** `array_unique`: the first occurrence of each course, in order. */
  function Dedup(s: seq<CourseId>): seq<CourseId> {
    if |s| == 0 then []
    else
      var r := Dedup(s[..|s| - 1]);
      if s[|s| - 1] in r then r else r + [s[|s| - 1]]
  }

  /** The de-duplicated list holds exactly the courses of the list, each once. */
  lemma {:induction false} DedupMembers(s: seq<CourseId>)
    ensures forall c :: c in Dedup(s) <==> c in s
    ensures forall i, j :: 0 <= i < j < |Dedup(s)| ==> Dedup(s)[i] != Dedup(s)[j]
    decreases |s|
  {
    if |s| > 0 {
      DedupMembers(s[..|s| - 1]);
      assert s == s[..|s| - 1] + [s[|s| - 1]];
    }
  }

  /** Each course of the union appears once in the de-duplicated list. */
  lemma {:induction false} DedupOnce(s: seq<CourseId>, c: CourseId)
    ensures multiset(Dedup(s))[c] == if c in s then 1 else 0
    decreases |s|
  {
    if |s| > 0 {
      DedupMembers(s[..|s| - 1]);
      DedupOnce(s[..|s| - 1], c);
      assert s == s[..|s| - 1] + [s[|s| - 1]];
    }
  }

  /** A course is in the union iff some student lists it. */
  lemma {:induction false} AllCoursesHas(ss: seq<StudentInput>, c: CourseId)
    ensures c in AllCourses(ss) <==> exists k :: 0 <= k < |ss| && c in ss[k].courses
    decreases |ss|
  {
    if |ss| > 0 {
      var init := ss[..|ss| - 1];
      AllCoursesHas(init, c);
      assert forall k :: 0 <= k < |init| ==> init[k] == ss[k];
      if c in ss[|ss| - 1].courses {
        assert c in AllCourses(ss);
      }
    }
  }

  /** One enrolment with `role` of user `id` per listed course, in list order. */
  function CourseEnrolments(id: UserId, courses: seq<CourseId>, role: RoleId): (r: seq<Enrolment>)
    ensures |r| == |courses|
  {
    seq(|courses|, k requires 0 <= k < |courses| => Enrolment(id, courses[k], role))
  }

  /** The messages of the enrolment calls, appended in course order. */
  function EnrolMessages(env: Env, u: User, courses: seq<CourseId>, role: RoleId): Messages {
    if |courses| == 0 then NoMessages
    else EnrolMessages(env, u, courses[..|courses| - 1], role).Then(env.enrol(u, courses[|courses| - 1], role))
  }

  /** The course messages of a student: one "no courses" error for an empty
      list, otherwise the messages of the enrolments. */
  function StudentCourseMessages(env: Env, u: User, courses: seq<CourseId>): Messages {
    if |courses| == 0 then Failed(NoCoursesFound(u)) else EnrolMessages(env, u, courses, env.studentRole)
  }

  /** The enrolments of every student in their own courses, student by student. */
  function StudentEnrolments(students: seq<User>, ss: seq<StudentInput>, role: RoleId): seq<Enrolment>
    requires |students| == |ss|
  {
    if |ss| == 0 then []
    else
      StudentEnrolments(students[..|ss| - 1], ss[..|ss| - 1], role)
      + CourseEnrolments(students[|ss| - 1].id, ss[|ss| - 1].courses, role)
  }

  lemma StudentEnrolmentsSnoc(students: seq<User>, ss: seq<StudentInput>, u: User, s: StudentInput, role: RoleId)
    requires |students| == |ss|
    ensures StudentEnrolments(students + [u], ss + [s], role)
      == StudentEnrolments(students, ss, role) + CourseEnrolments(u.id, s.courses, role)
  {
    assert (students + [u])[..|ss|] == students;
    assert (ss + [s])[..|ss|] == ss;
  }

  /** The enrolments of every parent in every course of `courses`, parent by parent. */
  function ParentEnrolments(parents: seq<User>, courses: seq<CourseId>, role: RoleId): seq<Enrolment> {
    if |parents| == 0 then []
    else ParentEnrolments(parents[..|parents| - 1], courses, role) + CourseEnrolments(parents[|parents| - 1].id, courses, role)
  }

  /** One parent-role link of the student to each parent, in parent order. */
  function ParentLinks(student: UserId, parents: seq<User>): (r: seq<RoleLink>)
    ensures |r| == |parents|
  {
    seq(|parents|, k requires 0 <= k < |parents| => RoleLink(student, parents[k].id))
  }

  function LinkMessages(env: Env, student: User, parents: seq<User>): Messages {
    if |parents| == 0 then NoMessages
    else LinkMessages(env, student, parents[..|parents| - 1]).Then(env.assignParentRole(student, parents[|parents| - 1]))
  }

  /** The links of every student to every parent, student by student. */
  function Links(students: seq<User>, parents: seq<User>): seq<RoleLink> {
    if |students| == 0 then []
    else Links(students[..|students| - 1], parents) + ParentLinks(students[|students| - 1].id, parents)
  }

  lemma LinksSnoc(students: seq<User>, u: User, parents: seq<User>)
    ensures Links(students + [u], parents) == Links(students, parents) + ParentLinks(u.id, parents)
  {
    assert (students + [u])[..|students|] == students;
  }

  /** How many entries of `us` have user id `id`. */
  function CountId(us: seq<User>, id: UserId): nat {
    if |us| == 0 then 0 else CountId(us[..|us| - 1], id) + (if us[|us| - 1].id == id then 1 else 0)
  }

  lemma {:induction false} CourseEnrolmentsCount(id: UserId, courses: seq<CourseId>, role: RoleId, e: Enrolment)
    ensures multiset(CourseEnrolments(id, courses, role))[e] ==
      if e.user == id && e.role == role then multiset(courses)[e.course] else 0
    decreases |courses|
  {
    if |courses| > 0 {
      var init := courses[..|courses| - 1];
      CourseEnrolmentsCount(id, init, role, e);
      assert CourseEnrolments(id, courses, role) == CourseEnrolments(id, init, role) + [Enrolment(id, courses[|courses| - 1], role)];
      assert courses == init + [courses[|courses| - 1]];
    }
  }

  /** `(c + d) * n`, distributed. */
  lemma Distribute(c: nat, d: nat, n: nat)
    ensures (c + d) * n == c * n + d * n
  {
  }

  /** Every parent is enrolled with `role` once per occurrence in `courses`. */
  lemma {:induction false} ParentEnrolmentsCount(parents: seq<User>, courses: seq<CourseId>, role: RoleId, id: UserId, c: CourseId)
    ensures multiset(ParentEnrolments(parents, courses, role))[Enrolment(id, c, role)] == CountId(parents, id) * multiset(courses)[c]
    decreases |parents|
  {
    if |parents| > 0 {
      var init := parents[..|parents| - 1];
      var last := parents[|parents| - 1];
      var e := Enrolment(id, c, role);
      ParentEnrolmentsCount(init, courses, role, id, c);
      CourseEnrolmentsCount(last.id, courses, role, e);
      var d := if last.id == id then 1 else 0;
      assert CountId(parents, id) == CountId(init, id) + d;
      assert multiset(ParentEnrolments(parents, courses, role))[e]
        == multiset(ParentEnrolments(init, courses, role))[e] + multiset(CourseEnrolments(last.id, courses, role))[e];
      Distribute(CountId(init, id), d, multiset(courses)[c]);
    }
  }

  /** Parent enrolments are only ever in a listed course, with `role`, for one of the parents. */
  lemma {:induction false} ParentEnrolmentsRange(parents: seq<User>, courses: seq<CourseId>, role: RoleId)
    ensures forall e :: e in ParentEnrolments(parents, courses, role) ==> e.role == role && e.course in courses && e.user in Ids(parents)
    decreases |parents|
  {
    if |parents| > 0 {
      var init := parents[..|parents| - 1];
      var last := parents[|parents| - 1];
      ParentEnrolmentsRange(init, courses, role);
      assert Ids(parents) == Ids(init) + {last.id} by {
        assert forall k :: 0 <= k < |init| ==> init[k] == parents[k];
      }
      forall e | e in CourseEnrolments(last.id, courses, role)
        ensures e.role == role && e.course in courses && e.user in Ids(parents)
      {
        var k :| 0 <= k < |courses| && CourseEnrolments(last.id, courses, role)[k] == e;
      }
    }
  }

  /** The parents of a family are enrolled with the parent role in exactly the
      courses some child of the family lists, once per distinct parent and course. */
  lemma ParentsEnrolledInChildrenCourses(parents: seq<User>, ss: seq<StudentInput>, role: RoleId, id: UserId, c: CourseId)
    requires CountId(parents, id) == 1
    ensures multiset(ParentEnrolments(parents, Dedup(AllCourses(ss)), role))[Enrolment(id, c, role)] ==
      if exists k :: 0 <= k < |ss| && c in ss[k].courses then 1 else 0
  {
    ParentEnrolmentsCount(parents, Dedup(AllCourses(ss)), role, id, c);
    DedupOnce(AllCourses(ss), c);
    AllCoursesHas(ss, c);
  }

  lemma {:induction false} ParentLinksCount(student: UserId, parents: seq<User>, l: RoleLink)
    ensures multiset(ParentLinks(student, parents))[l] == if l.student == student then CountId(parents, l.parent) else 0
    decreases |parents|
  {
    if |parents| > 0 {
      var init := parents[..|parents| - 1];
      ParentLinksCount(student, init, l);
      assert ParentLinks(student, parents) == ParentLinks(student, init) + [RoleLink(student, parents[|parents| - 1].id)];
    }
  }

  /** Each student is linked to each parent as many times as the pair occurs:
      exactly once for a family whose accounts are distinct. */
  lemma {:induction false} LinksCount(students: seq<User>, parents: seq<User>, l: RoleLink)
    ensures multiset(Links(students, parents))[l] == CountId(students, l.student) * CountId(parents, l.parent)
    decreases |students|
  {
    if |students| > 0 {
      var init := students[..|students| - 1];
      var last := students[|students| - 1];
      LinksCount(init, parents, l);
      ParentLinksCount(last.id, parents, l);
      var d := if last.id == l.student then 1 else 0;
      assert CountId(students, l.student) == CountId(init, l.student) + d;
      assert multiset(Links(students, parents))[l]
        == multiset(Links(init, parents))[l] + multiset(ParentLinks(last.id, parents))[l];
      Distribute(CountId(init, l.student), d, CountId(parents, l.parent));
    }
  }

  // ---------------------------------------------------------------------------
  // The messages of a family
  // ---------------------------------------------------------------------------

  lemma AppendAssoc<T>(a: seq<T>, b: seq<T>, c: seq<T>)
    ensures (a + b) + c == a + (b + c)
  {
  }

  lemma NoMessagesThen(m: Messages)
    ensures NoMessages.Then(m) == m
  {
  }

  lemma ThenAssoc(a: Messages, b: Messages, c: Messages)
    ensures a.Then(b).Then(c) == a.Then(b.Then(c))
  {
  }

  /** The message of resolving one account: "account created" as a success
      for a new account, "account already exists" as a warning otherwise. */
  function ResolutionMessage(isNew: bool, u: User): Messages {
    if isNew then Succeeded(AccountCreated(u)) else Warned(AccountAlreadyExists(u))
  }

  /** The messages of the parent pass, in parent order. */
  function ParentPassMessages(parents: seq<User>, news: seq<bool>): Messages
    requires |news| == |parents|
  {
    if |parents| == 0 then NoMessages
    else
      ParentPassMessages(parents[..|parents| - 1], news[..|parents| - 1])
        .Then(ResolutionMessage(news[|parents| - 1], parents[|parents| - 1]))
  }

  /** The messages of one student: its resolution, its courses, its parent links. */
  function StudentMessages(env: Env, student: User, isNew: bool, courses: seq<CourseId>, parents: seq<User>): Messages {
    ResolutionMessage(isNew, student).Then(StudentCourseMessages(env, student, courses)).Then(LinkMessages(env, student, parents))
  }

  /** The messages of the student pass, student by student. */
  function StudentPassMessages(env: Env, students: seq<User>, news: seq<bool>, ss: seq<StudentInput>, parents: seq<User>): Messages
    requires |students| == |news| == |ss|
  {
    if |ss| == 0 then NoMessages
    else
      var n := |ss| - 1;
      StudentPassMessages(env, students[..n], news[..n], ss[..n], parents)
        .Then(StudentMessages(env, students[n], news[n], ss[n].courses, parents))
  }

  lemma StudentPassSnoc(env: Env, students: seq<User>, news: seq<bool>, ss: seq<StudentInput>, parents: seq<User>,
                        u: User, b: bool, s: StudentInput)
    requires |students| == |news| == |ss|
    ensures StudentPassMessages(env, students + [u], news + [b], ss + [s], parents)
      == StudentPassMessages(env, students, news, ss, parents).Then(StudentMessages(env, u, b, s.courses, parents))
  {
    assert (students + [u])[..|ss|] == students;
    assert (news + [b])[..|ss|] == news;
    assert (ss + [s])[..|ss|] == ss;
  }

  /** The messages of enrolling every parent in every course, parent by parent. */
  function ParentEnrolMessages(env: Env, parents: seq<User>, courses: seq<CourseId>): Messages {
    if |parents| == 0 then NoMessages
    else
      ParentEnrolMessages(env, parents[..|parents| - 1], courses)
        .Then(EnrolMessages(env, parents[|parents| - 1], courses, env.parentRole))
  }

  /** The processed accounts of a pass that were created (`news[k]`), or found
      (`!news[k]`), each with the family's partnership. */
  function Accounts(us: seq<User>, news: seq<bool>, wanted: bool, partnership: string): seq<Resolved>
    requires |news| == |us|
  {
    if |us| == 0 then []
    else
      Accounts(us[..|us| - 1], news[..|us| - 1], wanted, partnership)
        + (if news[|us| - 1] == wanted then [Resolved(us[|us| - 1], partnership)] else [])
  }

  lemma AccountsSnoc(us: seq<User>, news: seq<bool>, u: User, b: bool, wanted: bool, partnership: string)
    requires |news| == |us|
    ensures Accounts(us + [u], news + [b], wanted, partnership)
      == Accounts(us, news, wanted, partnership) + (if b == wanted then [Resolved(u, partnership)] else [])
  {
    assert (us + [u])[..|us|] == us;
    assert (news + [b])[..|us|] == news;
  }

  /** Every account of a pass, in order, with the family's partnership. */
  function AllAccounts(us: seq<User>, partnership: string): (r: seq<Resolved>)
    ensures |r| == |us|
  {
    if |us| == 0 then [] else AllAccounts(us[..|us| - 1], partnership) + [Resolved(us[|us| - 1], partnership)]
  }

  /** Every account of a pass is listed once, as created or as found: the
      two lists together hold each account of the pass exactly as often as
      the pass resolves to it. */
  lemma {:induction false} AccountsPartition(us: seq<User>, news: seq<bool>, partnership: string)
    requires |news| == |us|
    ensures |Accounts(us, news, true, partnership)| + |Accounts(us, news, false, partnership)| == |us|
    ensures multiset(Accounts(us, news, true, partnership)) + multiset(Accounts(us, news, false, partnership))
      == multiset(AllAccounts(us, partnership))
    decreases |us|
  {
    if |us| > 0 {
      AccountsPartition(us[..|us| - 1], news[..|us| - 1], partnership);
    }
  }

  /** The whole notification text of a family: the parent pass, the student
      pass, then the parents' enrolments in the union of the children's courses. */
  function FamilyMessages(env: Env, parents: seq<User>, parentNews: seq<bool>,
                          students: seq<User>, studentNews: seq<bool>, ss: seq<StudentInput>): Messages
    requires |parentNews| == |parents| && |students| == |studentNews| == |ss|
  {
    ParentPassMessages(parents, parentNews)
      .Then(StudentPassMessages(env, students, studentNews, ss, parents))
      .Then(ParentEnrolMessages(env, parents, Dedup(AllCourses(ss))))
  }

  /** The parent pass reports no error, and one message per parent. */
  lemma {:induction false} ParentPassCounts(parents: seq<User>, news: seq<bool>)
    requires |news| == |parents|
    ensures ParentPassMessages(parents, news).errors == []
    ensures |ParentPassMessages(parents, news).successes| + |ParentPassMessages(parents, news).warnings| == |parents|
    decreases |parents|
  {
    if |parents| > 0 {
      ParentPassCounts(parents[..|parents| - 1], news[..|parents| - 1]);
    }
  }

  /** Every student without courses is reported with a "no courses" error. */
  lemma {:induction false} StudentPassReportsNoCourses(env: Env, students: seq<User>, news: seq<bool>, ss: seq<StudentInput>,
                                                       parents: seq<User>, k: nat)
    requires |students| == |news| == |ss| && k < |ss| && |ss[k].courses| == 0
    ensures NoCoursesFound(students[k]) in StudentPassMessages(env, students, news, ss, parents).errors
    decreases |ss|
  {
    var n := |ss| - 1;
    var m := StudentPassMessages(env, students, news, ss, parents);
    var prev := StudentPassMessages(env, students[..n], news[..n], ss[..n], parents);
    var last := StudentMessages(env, students[n], news[n], ss[n].courses, parents);
    assert m.errors == prev.errors + last.errors;
    if k < n {
      StudentPassReportsNoCourses(env, students[..n], news[..n], ss[..n], parents, k);
    } else {
      assert last.errors == ResolutionMessage(news[n], students[n]).errors + [NoCoursesFound(students[n])]
        + LinkMessages(env, students[n], parents).errors;
    }
  }

  /** A family in which some student lists no course is shown with the error status. */
  lemma FamilyWithoutCoursesIsError(env: Env, parents: seq<User>, parentNews: seq<bool>,
                                    students: seq<User>, studentNews: seq<bool>, ss: seq<StudentInput>, k: nat)
    requires |parentNews| == |parents| && |students| == |studentNews| == |ss|
    requires k < |ss| && |ss[k].courses| == 0
    ensures NoCoursesFound(students[k]) in FamilyMessages(env, parents, parentNews, students, studentNews, ss).errors
    ensures StatusOf(FamilyMessages(env, parents, parentNews, students, studentNews, ss)) == Error
  {
    StudentPassReportsNoCourses(env, students, studentNews, ss, parents, k);
  }

  // ---------------------------------------------------------------------------
  // Family name
  // ---------------------------------------------------------------------------

  /** The notification title: the first parent's last name, else the first
      student's; None when the family has no users (the page throws). */
  function FamilyName(parents: seq<User>, students: seq<User>): (r: Option<string>)
    ensures r.None? <==> |parents| == 0 && |students| == 0
    ensures |parents| > 0 ==> r == Some(parents[0].lastname)
    ensures |parents| == 0 && |students| > 0 ==> r == Some(students[0].lastname)
  {
    if |parents| > 0 then Some(parents[0].lastname)
    else if |students| > 0 then Some(students[0].lastname)
    else None
  }

  // ---------------------------------------------------------------------------
  // Shadow profile table
  // ---------------------------------------------------------------------------

  datatype Address = Address(
    extrainput: string, streetaddress: string, apartment: string, city: string,
    state: string, country: string, zipcode: string, extrainstructions: Option<string>)

  const EmptyAddress := Address("", "", "", "", "", "", "", None)

  /** A row of the plugin's own user table. */
  datatype ShadowRow = ShadowRow(
    id: nat,
    userid: UserId,
    partnershipid: string,
    studentids: string,
    vccsubmissionids: string,
    phoneverificationids: string,
    phone: Option<string>,
    phoneVerified: Option<string>,
    mailing: Address,
    billingSameAsMailing: string,
    billing: Address,
    timecreated: int,
    timemodified: int)

  /** The row inserted for an account with none: empty id lists, empty addresses. */
  function NewShadowRow(id: nat, u: Resolved, now: int): ShadowRow {
    ShadowRow(id, u.user.id, u.partnershipid, "[]", "[]", "[]", None, None, EmptyAddress, "0", EmptyAddress, now, now)
  }

  /** How many rows of the table belong to `userid`. */
  function CountRows(table: seq<ShadowRow>, userid: UserId): nat {
    if |table| == 0 then 0 else CountRows(table[..|table| - 1], userid) + (if table[|table| - 1].userid == userid then 1 else 0)
  }

  /** The row `get_record` returns for `userid`: the first one. */
  function FirstRowOfUser(table: seq<ShadowRow>, userid: UserId): Option<nat> {
    FirstIndex(table, (row: ShadowRow) => row.userid == userid)
  }

  /** Upserting one processed account: an existing row gets only the new
      partnership and modification time; otherwise a new row `next` is added. */
  function UpsertOne(table: seq<ShadowRow>, next: nat, u: Resolved, now: int): (r: (seq<ShadowRow>, nat))
    ensures FirstRowOfUser(table, u.user.id).Some? ==>
      var k := FirstRowOfUser(table, u.user.id).value;
      && |r.0| == |table| && r.1 == next
      && (forall j :: 0 <= j < |table| && j != k ==> r.0[j] == table[j])
      && r.0[k].(partnershipid := table[k].partnershipid, timemodified := table[k].timemodified) == table[k]
      && r.0[k].partnershipid == u.partnershipid && r.0[k].timemodified == now
    ensures FirstRowOfUser(table, u.user.id).None? ==>
      r.0 == table + [NewShadowRow(next, u, now)] && r.1 == next + 1
  {
    match FirstRowOfUser(table, u.user.id)
    case Some(k) => (table[k := table[k].(partnershipid := u.partnershipid, timemodified := now)], next)
    case None => (table + [NewShadowRow(next, u, now)], next + 1)
  }

  /** Upserting every processed account in order. */
  function UpsertAll(table: seq<ShadowRow>, next: nat, us: seq<Resolved>, now: int): (seq<ShadowRow>, nat) {
    if |us| == 0 then (table, next)
    else
      var r := UpsertAll(table, next, us[..|us| - 1], now);
      UpsertOne(r.0, r.1, us[|us| - 1], now)
  }

  lemma {:induction false} CountRowsUpdate(table: seq<ShadowRow>, k: nat, row: ShadowRow, userid: UserId)
    requires k < |table| && row.userid == table[k].userid
    ensures CountRows(table[k := row], userid) == CountRows(table, userid)
    decreases |table|
  {
    var n := |table| - 1;
    if k < n {
      CountRowsUpdate(table[..n], k, row, userid);
      assert table[k := row][..n] == table[..n][k := row];
    } else {
      assert table[k := row][..n] == table[..n];
    }
  }

  lemma CountRowsPositive(table: seq<ShadowRow>, userid: UserId)
    ensures CountRows(table, userid) == 0 <==> forall k :: 0 <= k < |table| ==> table[k].userid != userid
  {
    if |table| > 0 {
      var n := |table| - 1;
      CountRowsPositive(table[..n], userid);
      assert forall k :: 0 <= k < n ==> table[..n][k] == table[k];
    }
  }

  /** One upsert leaves the account with max(1, rows before) rows and every
      other account's row count unchanged. */
  lemma UpsertOneCounts(table: seq<ShadowRow>, next: nat, u: Resolved, now: int, userid: UserId)
    ensures CountRows(UpsertOne(table, next, u, now).0, userid) ==
      if userid == u.user.id && CountRows(table, userid) == 0 then 1 else CountRows(table, userid)
  {
    CountRowsPositive(table, u.user.id);
    match FirstRowOfUser(table, u.user.id)
    case Some(k) =>
      CountRowsUpdate(table, k, table[k].(partnershipid := u.partnershipid, timemodified := now), userid);
    case None =>
      var r := table + [NewShadowRow(next, u, now)];
      assert r[..|r| - 1] == table;
  }

  /** After the upsert pass, every processed account has exactly one row if it
      had none before (however often it was processed), its old rows
      otherwise, and no other account's rows are added or removed. */
  lemma {:induction false} UpsertAllCounts(table: seq<ShadowRow>, next: nat, us: seq<Resolved>, now: int, userid: UserId)
    ensures CountRows(UpsertAll(table, next, us, now).0, userid) ==
      if (exists k :: 0 <= k < |us| && us[k].user.id == userid) && CountRows(table, userid) == 0 then 1
      else CountRows(table, userid)
    decreases |us|
  {
    if |us| > 0 {
      var init := us[..|us| - 1];
      UpsertAllCounts(table, next, init, now, userid);
      var r := UpsertAll(table, next, init, now);
      UpsertOneCounts(r.0, r.1, us[|us| - 1], now, userid);
      assert forall k :: 0 <= k < |init| ==> init[k] == us[k];
    }
  }

  /** The user ids, in order, whose accounts have more than one shadow row. */
  function DuplicatedIds(ids: seq<UserId>, table: seq<ShadowRow>): (r: seq<UserId>)
    ensures forall id :: id in r <==> id in ids && CountRows(table, id) > 1
  {
    if |ids| == 0 then []
    else
      assert forall id :: id in ids <==> id in ids[..|ids| - 1] || id == ids[|ids| - 1] by {
        assert ids == ids[..|ids| - 1] + [ids[|ids| - 1]];
      }
      DuplicatedIds(ids[..|ids| - 1], table) + (if CountRows(table, ids[|ids| - 1]) > 1 then [ids[|ids| - 1]] else [])
  }

  /** What the merge helper is assumed to respect: it does not change how
      many rows any other account has. */
  ghost predicate MergeKeepsOthers(merge: (seq<ShadowRow>, UserId) -> seq<ShadowRow>) {
    forall t, id, other :: other != id ==> CountRows(merge(t, id), other) == CountRows(t, other)
  }

  predicate DistinctIds(ids: seq<UserId>) {
    forall i, j :: 0 <= i < j < |ids| ==> ids[i] != ids[j]
  }

  /** The email a student is looked up by: the given one, else one generated
      from the first parent's email and the student's first name. */
  function StudentEmail(env: Env, s: StudentInput, parents: seq<User>): string
    requires s.email.None? ==> |parents| > 0
  {
    if s.email.Some? then s.email.value else env.generatedStudentEmail(parents[0].email, s.name.firstName)
  }

  // ---------------------------------------------------------------------------
  // Which account each person of a family resolves to
  // ---------------------------------------------------------------------------

  /** One account lookup of the page: the account stored under `email`, else
      the `fallback` account (a sibling found by name), else a new account. */
  datatype AccountRequest = AccountRequest(email: string, firstname: string, lastname: string, fallback: Option<User>)

  /** A parent is looked up by email only. */
  function ParentRequest(p: ParentInput): AccountRequest {
    AccountRequest(p.email, p.name.firstName, p.name.lastName, None)
  }

  function ParentRequests(ps: seq<ParentInput>): (qs: seq<AccountRequest>)
    ensures |qs| == |ps|
  {
    if |ps| == 0 then [] else ParentRequests(ps[..|ps| - 1]) + [ParentRequest(ps[|ps| - 1])]
  }

  lemma {:induction false} ParentRequestsAt(ps: seq<ParentInput>)
    ensures forall k :: 0 <= k < |ps| ==> ParentRequests(ps)[k] == ParentRequest(ps[k])
    decreases |ps|
  {
    if |ps| > 0 {
      ParentRequestsAt(ps[..|ps| - 1]);
    }
  }

  /** A student without an email gets one generated from the first parent's. */
  predicate StudentEmailsDefined(ss: seq<StudentInput>, parents: seq<User>) {
    forall k :: 0 <= k < |ss| ==> ss[k].email.None? ==> |parents| > 0
  }

  /** A student is looked up by its email, with the first sibling-cache entry
      of the same names as the fallback. */
  function StudentRequest(env: Env, s: StudentInput, parents: seq<User>, cache: seq<User>): AccountRequest
    requires s.email.None? ==> |parents| > 0
  {
    AccountRequest(StudentEmail(env, s, parents), s.name.firstName, s.name.lastName,
      match FirstNameMatch(cache, s.name.firstName, s.name.lastName)
      case None => None
      case Some(i) => Some(cache[i]))
  }

  function StudentRequests(env: Env, ss: seq<StudentInput>, parents: seq<User>, cache: seq<User>): (qs: seq<AccountRequest>)
    requires StudentEmailsDefined(ss, parents)
    ensures |qs| == |ss|
  {
    if |ss| == 0 then []
    else StudentRequests(env, ss[..|ss| - 1], parents, cache) + [StudentRequest(env, ss[|ss| - 1], parents, cache)]
  }

  lemma StudentRequestsSnoc(env: Env, ss: seq<StudentInput>, parents: seq<User>, cache: seq<User>, s: StudentInput)
    requires StudentEmailsDefined(ss, parents) && (s.email.None? ==> |parents| > 0)
    ensures StudentEmailsDefined(ss + [s], parents)
    ensures StudentRequests(env, ss + [s], parents, cache) == StudentRequests(env, ss, parents, cache) + [StudentRequest(env, s, parents, cache)]
  {
    assert (ss + [s])[..|ss|] == ss;
  }

  /** The user table and the next free id after a pass, with the account each
      request of the pass resolved to and whether that account was created. */
  datatype Pass = Pass(users: map<string, User>, next: nat, accounts: seq<User>, news: seq<bool>)

  /** One lookup: the stored account of the email, else the fallback, else
      a new account with the next id, filed under the email. */
  function ResolveOne(r: Pass, q: AccountRequest): Pass {
    if q.email in r.users then Pass(r.users, r.next, r.accounts + [r.users[q.email]], r.news + [false])
    else if q.fallback.Some? then Pass(r.users, r.next, r.accounts + [q.fallback.value], r.news + [false])
    else
      var u := User(r.next, q.firstname, q.lastname, q.email);
      Pass(r.users[q.email := u], r.next + 1, r.accounts + [u], r.news + [true])
  }

  /** A pass of lookups, in order, each one seeing the accounts created before it. */
  function ResolveAll(users: map<string, User>, next: nat, qs: seq<AccountRequest>): (r: Pass)
    ensures |r.accounts| == |r.news| == |qs|
    decreases |qs|
  {
    if |qs| == 0 then Pass(users, next, [], [])
    else ResolveOne(ResolveAll(users, next, qs[..|qs| - 1]), qs[|qs| - 1])
  }

  lemma ResolveAllSnoc(users: map<string, User>, next: nat, qs: seq<AccountRequest>, q: AccountRequest)
    ensures ResolveAll(users, next, qs + [q]) == ResolveOne(ResolveAll(users, next, qs), q)
  {
    assert (qs + [q])[..|qs|] == qs;
  }

  /** What `ResolveParent` does to a pass state is one `ResolveOne` step. */
  lemma ParentOutcomeIsLookup(p: ParentInput, r: Pass, parent: User, isNew: bool, users': map<string, User>, next': nat)
    requires isNew <==> p.email !in r.users
    requires parent == if isNew then User(r.next, p.name.firstName, p.name.lastName, p.email) else r.users[p.email]
    requires users' == r.users[p.email := parent]
    requires next' == r.next + (if isNew then 1 else 0)
    ensures ResolveOne(r, ParentRequest(p)) == Pass(users', next', r.accounts + [parent], r.news + [isNew])
  {
    if !isNew {
      assert users' == r.users;
    }
  }

  /** One more parent extends the parent pass by one lookup. */
  lemma ParentStep(users: map<string, User>, next: nat, ps: seq<ParentInput>, i: nat, r: Pass,
                   parent: User, isNew: bool, users': map<string, User>, next': nat)
    requires i < |ps| && r == ResolveAll(users, next, ParentRequests(ps[..i]))
    requires isNew <==> ps[i].email !in r.users
    requires parent == if isNew then User(r.next, ps[i].name.firstName, ps[i].name.lastName, ps[i].email) else r.users[ps[i].email]
    requires users' == r.users[ps[i].email := parent]
    requires next' == r.next + (if isNew then 1 else 0)
    ensures ResolveAll(users, next, ParentRequests(ps[..i + 1])) == Pass(users', next', r.accounts + [parent], r.news + [isNew])
  {
    TakeOneMore(ps, i);
    ResolveAllSnoc(users, next, ParentRequests(ps[..i]), ParentRequest(ps[i]));
    ParentOutcomeIsLookup(ps[i], r, parent, isNew, users', next');
  }

  /** The outcome of resolving one student (as `ResolveStudent` states it)
      is that student's lookup in the pass. */
  lemma StudentOutcomeIsLookup(env: Env, s: StudentInput, parents: seq<User>, cache: seq<User>, r: Pass,
                               student: User, isNew: bool, users': map<string, User>, next': nat)
    requires s.email.None? ==> |parents| > 0
    requires var email := StudentEmail(env, s, parents);
      var sibling := FirstNameMatch(cache, s.name.firstName, s.name.lastName);
      && (isNew <==> email !in r.users && sibling.None?)
      && student == (if email in r.users then r.users[email]
                     else if sibling.Some? then cache[sibling.value]
                     else User(r.next, s.name.firstName, s.name.lastName, email))
      && users' == (if isNew then r.users[email := student] else r.users)
      && next' == r.next + (if isNew then 1 else 0)
    ensures ResolveOne(r, StudentRequest(env, s, parents, cache)) == Pass(users', next', r.accounts + [student], r.news + [isNew])
  {
  }

  /** The emails of the requests whose account was created. */
  function CreatedEmails(qs: seq<AccountRequest>, news: seq<bool>): set<string>
    requires |news| == |qs|
  {
    if |qs| == 0 then {}
    else
      var n := |qs| - 1;
      CreatedEmails(qs[..n], news[..n]) + (if news[n] then {qs[n].email} else {})
  }

  lemma {:induction false} CreatedEmailsHas(qs: seq<AccountRequest>, news: seq<bool>, e: string)
    requires |news| == |qs|
    ensures e in CreatedEmails(qs, news) <==> exists k :: 0 <= k < |qs| && news[k] && qs[k].email == e
    decreases |qs|
  {
    if |qs| > 0 {
      var n := |qs| - 1;
      CreatedEmailsHas(qs[..n], news[..n], e);
      assert forall k :: 0 <= k < n ==> qs[..n][k] == qs[k] && news[..n][k] == news[k];
    }
  }

  /** Every account stored in `before` is still stored, unchanged, in `after`. */
  ghost predicate KeepsAccounts(before: map<string, User>, after: map<string, User>) {
    forall e :: e in before ==> e in after && after[e] == before[e]
  }

  lemma KeepsAccountsTrans(a: map<string, User>, b: map<string, User>, c: map<string, User>)
    requires KeepsAccounts(a, b) && KeepsAccounts(b, c)
    ensures KeepsAccounts(a, c)
  {
  }

  /** The table a pass `r` leaves: stored accounts are kept and exactly the
      created emails are added, each filed with its created account, whose id
      was not given out before. */
  ghost predicate TableFacts(users: map<string, User>, next: nat, qs: seq<AccountRequest>, r: Pass) {
    && |r.accounts| == |r.news| == |qs|
    && KeepsAccounts(users, r.users)
    && next <= r.next
    && r.users.Keys == users.Keys + CreatedEmails(qs, r.news)
    && (forall k :: 0 <= k < |qs| && r.news[k] ==>
          qs[k].email in r.users && r.accounts[k] == r.users[qs[k].email] && next <= r.accounts[k].id < r.next)
  }

  /** An account is created exactly when its email is neither stored nor
      created by an earlier request, and there is no fallback. */
  ghost predicate NewsFacts(users: map<string, User>, qs: seq<AccountRequest>, r: Pass)
    requires |r.news| == |qs|
  {
    forall k :: 0 <= k < |qs| ==>
      (r.news[k] <==> qs[k].email !in users && qs[k].email !in CreatedEmails(qs[..k], r.news[..k]) && qs[k].fallback.None?)
  }

  /** The account a request resolves to: the stored account of its email
      when there is one; else the account created by an earlier request with
      the same email (see `SharedFacts`); else the fallback. */
  ghost predicate AccountFacts(users: map<string, User>, qs: seq<AccountRequest>, r: Pass)
    requires |r.news| == |r.accounts| == |qs|
  {
    && (forall k :: 0 <= k < |qs| && qs[k].email in users ==> r.accounts[k] == users[qs[k].email])
    && (forall k :: (0 <= k < |qs| && qs[k].email !in users && qs[k].email !in CreatedEmails(qs[..k], r.news[..k])
                     && qs[k].fallback.Some?) ==> r.accounts[k] == qs[k].fallback.value)
  }

  /** A request whose email an earlier request created resolves to that
      account; without a fallback the account is always the one filed under
      the email. */
  ghost predicate SharedFacts(qs: seq<AccountRequest>, r: Pass)
    requires |r.news| == |r.accounts| == |qs|
  {
    && (forall j, k :: 0 <= j < k < |qs| && r.news[j] && qs[j].email == qs[k].email ==> r.accounts[k] == r.accounts[j])
    && (forall k :: 0 <= k < |qs| && qs[k].fallback.None? ==>
          qs[k].email in r.users && r.accounts[k] == r.users[qs[k].email])
  }

  /** Everything a pass promises. Together the news and account facts say
      that one email never yields two accounts. */
  ghost predicate PassFacts(users: map<string, User>, next: nat, qs: seq<AccountRequest>, r: Pass) {
    && TableFacts(users, next, qs, r)
    && NewsFacts(users, qs, r)
    && AccountFacts(users, qs, r)
    && SharedFacts(qs, r)
  }

  lemma TakeOneMore<T>(a: seq<T>, i: nat)
    requires i < |a|
    ensures a[..i + 1] == a[..i] + [a[i]]
  {
  }

  lemma PrefixesOfSnoc<T>(a: seq<T>, x: T)
    ensures forall k :: 0 <= k <= |a| ==> (a + [x])[..k] == a[..k]
  {
    forall k | 0 <= k <= |a|
      ensures (a + [x])[..k] == a[..k]
    {
      assert (a + [x])[..k] == (a + [x])[..|a|][..k];
    }
  }

  lemma ResolveOneTable(users: map<string, User>, next: nat, qs: seq<AccountRequest>, r: Pass, q: AccountRequest)
    requires TableFacts(users, next, qs, r)
    ensures TableFacts(users, next, qs + [q], ResolveOne(r, q))
  {
    var qs', r' := qs + [q], ResolveOne(r, q);
    var n := |qs|;
    assert forall k :: 0 <= k < n ==> qs'[k] == qs[k];
    assert qs'[..n] == qs && r'.news[..n] == r.news;
    assert CreatedEmails(qs', r'.news) == CreatedEmails(qs, r.news) + (if r'.news[n] then {q.email} else {});
  }

  lemma ResolveOneNews(users: map<string, User>, next: nat, qs: seq<AccountRequest>, r: Pass, q: AccountRequest)
    requires TableFacts(users, next, qs, r) && NewsFacts(users, qs, r)
    ensures NewsFacts(users, qs + [q], ResolveOne(r, q))
  {
    var qs', r' := qs + [q], ResolveOne(r, q);
    var n := |qs|;
    assert forall k :: 0 <= k < n ==> qs'[k] == qs[k] && r'.news[k] == r.news[k];
    PrefixesOfSnoc(qs, q);
    PrefixesOfSnoc(r.news, r'.news[n]);
    assert r'.news == r.news + [r'.news[n]];
  }

  lemma ResolveOneAccounts(users: map<string, User>, next: nat, qs: seq<AccountRequest>, r: Pass, q: AccountRequest)
    requires TableFacts(users, next, qs, r) && AccountFacts(users, qs, r)
    ensures AccountFacts(users, qs + [q], ResolveOne(r, q))
  {
    var qs', r' := qs + [q], ResolveOne(r, q);
    var n := |qs|;
    assert forall k :: 0 <= k < n ==> qs'[k] == qs[k] && r'.news[k] == r.news[k] && r'.accounts[k] == r.accounts[k];
    PrefixesOfSnoc(qs, q);
    PrefixesOfSnoc(r.news, r'.news[n]);
    assert r'.news == r.news + [r'.news[n]];
  }

  lemma ResolveOneShared(users: map<string, User>, next: nat, qs: seq<AccountRequest>, r: Pass, q: AccountRequest)
    requires TableFacts(users, next, qs, r) && SharedFacts(qs, r)
    ensures SharedFacts(qs + [q], ResolveOne(r, q))
  {
    var qs', r' := qs + [q], ResolveOne(r, q);
    var n := |qs|;
    assert forall k :: 0 <= k < n ==> qs'[k] == qs[k] && r'.news[k] == r.news[k] && r'.accounts[k] == r.accounts[k];
    assert KeepsAccounts(r.users, r'.users);
  }

  /** Every pass keeps the promises of `PassFacts`. */
  lemma {:induction false} ResolveAllFacts(users: map<string, User>, next: nat, qs: seq<AccountRequest>)
    ensures PassFacts(users, next, qs, ResolveAll(users, next, qs))
    decreases |qs|
  {
    if |qs| > 0 {
      var n := |qs| - 1;
      ResolveAllFacts(users, next, qs[..n]);
      var r := ResolveAll(users, next, qs[..n]);
      ResolveOneTable(users, next, qs[..n], r, qs[n]);
      ResolveOneNews(users, next, qs[..n], r, qs[n]);
      ResolveOneAccounts(users, next, qs[..n], r, qs[n]);
      ResolveOneShared(users, next, qs[..n], r, qs[n]);
      assert qs[..n] + [qs[n]] == qs;
    }
  }

  /** One family: the parent lookups on the stored accounts, then the
      student lookups on the table they leave, with the sibling cache of the
      resolved parents. */
  function FamilyPass(env: Env, users: map<string, User>, next: nat, f: FamilyInput, links: seq<RoleLink>): (r: (Pass, Pass))
    requires StudentEmailsResolvable(f)
    ensures |r.0.accounts| == |r.0.news| == |f.parents| && |r.1.accounts| == |r.1.news| == |f.students|
  {
    var pp := ResolveAll(users, next, ParentRequests(f.parents));
    (pp, ResolveAll(pp.users, pp.next, StudentRequests(env, f.students, pp.accounts, SiblingCache(env, pp.accounts, links))))
  }

  /** `parents`, `parentNews` and `after` are what `FamilyPass` gives. */
  ghost predicate IsFamilyPass(env: Env, users: map<string, User>, next: nat, f: FamilyInput, links: seq<RoleLink>,
                               parents: seq<User>, parentNews: seq<bool>, after: Pass)
    requires StudentEmailsResolvable(f)
  {
    var r := FamilyPass(env, users, next, f, links);
    r.0.accounts == parents && r.0.news == parentNews && r.1 == after
  }

  /** A pass keeps every stored account, and a request whose email is
      stored resolves to that account. */
  lemma StoredAccountsWin(users: map<string, User>, next: nat, qs: seq<AccountRequest>)
    ensures var r := ResolveAll(users, next, qs);
      && KeepsAccounts(users, r.users)
      && forall k :: 0 <= k < |qs| && qs[k].email in users ==> r.accounts[k] == users[qs[k].email]
  {
    ResolveAllFacts(users, next, qs);
  }

  /** Every parent ends up filed under its email and is that account. */
  lemma ParentsAreFiled(users: map<string, User>, next: nat, ps: seq<ParentInput>)
    ensures var r := ResolveAll(users, next, ParentRequests(ps));
      forall k :: 0 <= k < |ps| ==> ps[k].email in r.users && r.accounts[k] == r.users[ps[k].email]
  {
    ResolveAllFacts(users, next, ParentRequests(ps));
    ParentRequestsAt(ps);
  }

  /** A created account's email was not stored before the pass and is
      filed afterwards. */
  lemma CreatedWereAbsent(users: map<string, User>, next: nat, qs: seq<AccountRequest>)
    ensures var r := ResolveAll(users, next, qs);
      forall k :: 0 <= k < |qs| && r.news[k] ==> qs[k].email !in users && qs[k].email in r.users
  {
    ResolveAllFacts(users, next, qs);
  }

  /** Within one pass no email is created twice. */
  lemma CreatedOnce(users: map<string, User>, next: nat, qs: seq<AccountRequest>)
    ensures var r := ResolveAll(users, next, qs);
      forall j, k :: 0 <= j < k < |qs| && r.news[j] && r.news[k] ==> qs[j].email != qs[k].email
  {
    var r := ResolveAll(users, next, qs);
    ResolveAllFacts(users, next, qs);
    forall j, k | 0 <= j < k < |qs| && r.news[j] && r.news[k]
      ensures qs[j].email != qs[k].email
    {
      CreatedEmailsHas(qs[..k], r.news[..k], qs[j].email);
      assert qs[..k][j] == qs[j] && r.news[..k][j];
    }
  }

  /** Within one family: every account stored before it is kept, and is
      what a parent or a student with that email resolves to; and no email
      gets two new accounts, whether it is given twice to parents, twice to
      students, or to a parent and a student. */
  lemma FamilyResolution(env: Env, users: map<string, User>, next: nat, f: FamilyInput, links: seq<RoleLink>)
    requires StudentEmailsResolvable(f)
    ensures var (pp, sp) := FamilyPass(env, users, next, f, links);
      var pq := ParentRequests(f.parents);
      var sq := StudentRequests(env, f.students, pp.accounts, SiblingCache(env, pp.accounts, links));
      && KeepsAccounts(users, sp.users)
      && (forall k :: 0 <= k < |pq| && pq[k].email in users ==> pp.accounts[k] == users[pq[k].email])
      && (forall k :: 0 <= k < |sq| && sq[k].email in users ==> sp.accounts[k] == users[sq[k].email])
      && (forall j, k :: 0 <= j < k < |pq| && pp.news[j] && pp.news[k] ==> pq[j].email != pq[k].email)
      && (forall j, k :: 0 <= j < k < |sq| && sp.news[j] && sp.news[k] ==> sq[j].email != sq[k].email)
      && (forall j, k :: 0 <= j < |pq| && 0 <= k < |sq| && pp.news[j] && sp.news[k] ==> pq[j].email != sq[k].email)
  {
    var (pp, sp) := FamilyPass(env, users, next, f, links);
    var pq := ParentRequests(f.parents);
    var sq := StudentRequests(env, f.students, pp.accounts, SiblingCache(env, pp.accounts, links));
    StoredAccountsWin(users, next, pq);
    StoredAccountsWin(pp.users, pp.next, sq);
    CreatedWereAbsent(users, next, pq);
    CreatedWereAbsent(pp.users, pp.next, sq);
    CreatedOnce(users, next, pq);
    CreatedOnce(pp.users, pp.next, sq);
    forall k | 0 <= k < |sq| && sq[k].email in users
      ensures sp.accounts[k] == users[sq[k].email]
    {
      assert sq[k].email in pp.users;
    }
  }

  /** Every stored account is filed under its own email. */
  ghost predicate EmailKeyed(users: map<string, User>) {
    forall e :: e in users ==> users[e].email == e
  }

  /** `cs` are accounts created between the tables `before` and `after`: the
      email of each was not stored in `before` and files it in `after`, and no
      email occurs twice. */
  ghost predicate FreshAccounts(before: map<string, User>, after: map<string, User>, cs: seq<Resolved>) {
    && (forall k :: 0 <= k < |cs| ==>
          cs[k].user.email !in before && cs[k].user.email in after && after[cs[k].user.email] == cs[k].user)
    && (forall j, k :: 0 <= j < k < |cs| ==> cs[j].user.email != cs[k].user.email)
  }

  /** One more lookup keeps the created accounts fresh: a created account
      has an email neither stored before nor among the emails `es` created so
      far, and is filed under it. */
  lemma FreshStep(before: map<string, User>, after: map<string, User>, cs: seq<Resolved>, es: set<string>,
                  x: Resolved, isNew: bool)
    requires FreshAccounts(before, after, cs) && forall k :: 0 <= k < |cs| ==> cs[k].user.email in es
    requires isNew ==>
      x.user.email !in before && x.user.email !in es && x.user.email in after && after[x.user.email] == x.user
    ensures var cs' := cs + (if isNew then [x] else []);
      var es' := es + (if isNew then {x.user.email} else {});
      FreshAccounts(before, after, cs') && forall k :: 0 <= k < |cs'| ==> cs'[k].user.email in es'
  {
    if isNew {
      var cs' := cs + [x];
      assert forall k :: 0 <= k < |cs| ==> cs'[k] == cs[k];
    }
  }

  /** The created accounts of the first `n` lookups of a pass are fresh, and
      their emails are the created emails of those lookups. */
  lemma {:induction false} CreatedPrefixFresh(users: map<string, User>, next: nat, qs: seq<AccountRequest>, r: Pass,
                                              partnership: string, n: nat)
    requires TableFacts(users, next, qs, r) && NewsFacts(users, qs, r) && EmailKeyed(r.users) && n <= |qs|
    ensures var cs := Accounts(r.accounts[..n], r.news[..n], true, partnership);
      && FreshAccounts(users, r.users, cs)
      && forall k :: 0 <= k < |cs| ==> cs[k].user.email in CreatedEmails(qs[..n], r.news[..n])
    decreases n
  {
    if n > 0 {
      var m := n - 1;
      CreatedPrefixFresh(users, next, qs, r, partnership, m);
      var x := Resolved(r.accounts[m], partnership);
      assert r.news[m] ==>
        && qs[m].email !in users && qs[m].email !in CreatedEmails(qs[..m], r.news[..m])
        && qs[m].email in r.users && r.accounts[m] == r.users[qs[m].email];
      FreshStep(users, r.users, Accounts(r.accounts[..m], r.news[..m], true, partnership),
        CreatedEmails(qs[..m], r.news[..m]), x, r.news[m]);
      TakeOneMore(r.accounts, m);
      TakeOneMore(r.news, m);
      TakeOneMore(qs, m);
      AccountsSnoc(r.accounts[..m], r.news[..m], r.accounts[m], r.news[m], true, partnership);
      CreatedEmailsSnoc(qs[..m], r.news[..m], qs[m], r.news[m]);
    }
  }

  lemma CreatedEmailsSnoc(qs: seq<AccountRequest>, news: seq<bool>, q: AccountRequest, b: bool)
    requires |news| == |qs|
    ensures CreatedEmails(qs + [q], news + [b]) == CreatedEmails(qs, news) + (if b then {q.email} else {})
  {
    assert (qs + [q])[..|qs|] == qs;
    assert (news + [b])[..|qs|] == news;
  }

  /** The accounts a pass creates are fresh. */
  lemma PassCreatesFresh(users: map<string, User>, next: nat, qs: seq<AccountRequest>, partnership: string)
    requires EmailKeyed(ResolveAll(users, next, qs).users)
    ensures var r := ResolveAll(users, next, qs);
      FreshAccounts(users, r.users, Accounts(r.accounts, r.news, true, partnership))
  {
    var r := ResolveAll(users, next, qs);
    ResolveAllFacts(users, next, qs);
    CreatedPrefixFresh(users, next, qs, r, partnership, |qs|);
    assert r.accounts[..|qs|] == r.accounts && r.news[..|qs|] == r.news;
  }

  /** Fresh accounts of two passes in a row are fresh for both together. */
  lemma FreshAppend(before: map<string, User>, mid: map<string, User>, after: map<string, User>,
                    a: seq<Resolved>, b: seq<Resolved>)
    requires KeepsAccounts(before, mid) && KeepsAccounts(mid, after)
    requires FreshAccounts(before, mid, a) && FreshAccounts(mid, after, b)
    ensures FreshAccounts(before, after, a + b)
  {
    var c := a + b;
    forall k | 0 <= k < |c|
      ensures c[k].user.email !in before && c[k].user.email in after && after[c[k].user.email] == c[k].user
    {
      if k >= |a| {
        assert c[k] == b[k - |a|];
      }
    }
    forall j, k | 0 <= j < k < |c|
      ensures c[j].user.email != c[k].user.email
    {
      if k >= |a| {
        assert c[k] == b[k - |a|];
        if j >= |a| {
          assert c[j] == b[j - |a|];
        }
      }
    }
  }

  /** Across the parent pass and the student pass of a family, every created
      account is new: its email was not stored before the family and files it
      afterwards, and no email gets two new accounts. */
  lemma FamilyCreatesFresh(env: Env, users: map<string, User>, next: nat, f: FamilyInput, links: seq<RoleLink>,
                           partnership: string)
    requires StudentEmailsResolvable(f)
    requires EmailKeyed(FamilyPass(env, users, next, f, links).1.users)
    ensures var (pp, sp) := FamilyPass(env, users, next, f, links);
      FreshAccounts(users, sp.users,
        Accounts(pp.accounts, pp.news, true, partnership) + Accounts(sp.accounts, sp.news, true, partnership))
  {
    var (pp, sp) := FamilyPass(env, users, next, f, links);
    var pq := ParentRequests(f.parents);
    var sq := StudentRequests(env, f.students, pp.accounts, SiblingCache(env, pp.accounts, links));
    StoredAccountsWin(users, next, pq);
    StoredAccountsWin(pp.users, pp.next, sq);
    assert EmailKeyed(pp.users);
    PassCreatesFresh(users, next, pq, partnership);
    PassCreatesFresh(pp.users, pp.next, sq, partnership);
    FreshAppend(users, pp.users, sp.users, Accounts(pp.accounts, pp.news, true, partnership),
      Accounts(sp.accounts, sp.news, true, partnership));
  }

  // ---------------------------------------------------------------------------
  // The upload
  // ---------------------------------------------------------------------------

  /**
   * The state the upload reads and writes: the user table (by email), the
   * enrolments and parent-role links it asked the library for, the
   * `$created_users` and `$existing_users` lists, the notifications shown,
   * the shadow profile table and the merge calls.
   */
  class BulkUpload {
    const env: Env
    var users: map<string, User>
    var nextUserId: nat
    var enrolments: seq<Enrolment>
    var roleLinks: seq<RoleLink>
    var created: seq<Resolved>
    var existing: seq<Resolved>
    var notifications: seq<Notification>
    var shadow: seq<ShadowRow>
    var nextShadowId: nat
    var merged: seq<UserId>

    /** Every stored account is filed under its own email and has an id
        below the next one to be given out. */
    ghost predicate Valid()
      reads this`users, this`nextUserId
    {
      forall e :: e in users ==> users[e].email == e && users[e].id < nextUserId
    }

    constructor (env: Env, users: map<string, User>, nextUserId: nat, shadow: seq<ShadowRow>, nextShadowId: nat)
      requires forall e :: e in users ==> users[e].email == e && users[e].id < nextUserId
      ensures Valid()
      ensures this.env == env && this.users == users && this.nextUserId == nextUserId
      ensures this.shadow == shadow && this.nextShadowId == nextShadowId
      ensures enrolments == [] && roleLinks == [] && created == [] && existing == []
      ensures notifications == [] && merged == []
    {
      this.env := env;
      this.users := users;
      this.nextUserId := nextUserId;
      this.shadow := shadow;
      this.nextShadowId := nextShadowId;
      enrolments, roleLinks, created, existing, notifications, merged := [], [], [], [], [], [];
    }

    /** `user_create_user`: a new account with a fresh id, filed under its email. */
    method CreateUser(first: string, last: string, email: string) returns (u: User)
      requires Valid() && email !in users
      modifies this`users, this`nextUserId
      ensures Valid()
      ensures u == User(old(nextUserId), first, last, email)
      ensures users == old(users)[email := u] && nextUserId == old(nextUserId) + 1
      ensures forall e :: e in old(users) ==> old(users)[e].id != u.id
    {
      u := User(nextUserId, first, last, email);
      users := users[email := u];
      nextUserId := nextUserId + 1;
    }

    /** One parent: the stored account of that email, with an "already
        exists" warning, or a new account, with an "account created" success.
        `isNew` is whether an account was created. Either way the parent is
        filed under its email afterwards. */
    method ResolveParent(p: ParentInput, partnership: string, msgs: Messages)
      returns (parent: User, isNew: bool, out: Messages)
      requires Valid()
      modifies this`users, this`nextUserId, this`created, this`existing
      ensures Valid()
      ensures isNew <==> p.email !in old(users)
      ensures parent == if isNew then User(old(nextUserId), p.name.firstName, p.name.lastName, p.email)
                        else old(users)[p.email]
      ensures users == old(users)[p.email := parent]
      ensures nextUserId == old(nextUserId) + (if isNew then 1 else 0)
      ensures out == msgs.Then(ResolutionMessage(isNew, parent))
      ensures created == old(created) + (if isNew then [Resolved(parent, partnership)] else [])
      ensures existing == old(existing) + (if isNew then [] else [Resolved(parent, partnership)])
    {
      if p.email in users {
        parent, isNew := users[p.email], false;
        out := msgs.Then(Warned(AccountAlreadyExists(parent)));
        existing := existing + [Resolved(parent, partnership)];
      } else {
        parent := CreateUser(p.name.firstName, p.name.lastName, p.email);
        isNew := true;
        out := msgs.Then(Succeeded(AccountCreated(parent)));
        created := created + [Resolved(parent, partnership)];
      }
    }

    /** The first pass over the parents: resolve each, and grow the sibling
        cache by the students each one already has. `news[k]` is whether
        parent `k` was created. Parents with the same email resolve to the
        same account. */
    method ResolveParents(ps: seq<ParentInput>, partnership: string, msgs: Messages)
      returns (parents: seq<User>, news: seq<bool>, cache: seq<User>, out: Messages)
      requires Valid()
      modifies this`users, this`nextUserId, this`created, this`existing
      ensures Valid()
      ensures Pass(users, nextUserId, parents, news) == ResolveAll(old(users), old(nextUserId), ParentRequests(ps))
      ensures |parents| == |ps| == |news|
      ensures forall k :: 0 <= k < |ps| ==> ps[k].email in users && parents[k] == users[ps[k].email]
      ensures cache == SiblingCache(env, parents, roleLinks)
      ensures out == msgs.Then(ParentPassMessages(parents, news))
      ensures created == old(created) + Accounts(parents, news, true, partnership)
      ensures existing == old(existing) + Accounts(parents, news, false, partnership)
    {
      parents, news, cache, out := [], [], [], msgs;
      for i := 0 to |ps|
        invariant Valid()
        invariant Pass(users, nextUserId, parents, news) == ResolveAll(old(users), old(nextUserId), ParentRequests(ps[..i]))
        invariant |parents| == i == |news|
        invariant cache == SiblingCache(env, parents, roleLinks)
        invariant out == msgs.Then(ParentPassMessages(parents, news))
        invariant created == old(created) + Accounts(parents, news, true, partnership)
        invariant existing == old(existing) + Accounts(parents, news, false, partnership)
      {
        ghost var before := Pass(users, nextUserId, parents, news);
        var parent, isNew, next := ResolveParent(ps[i], partnership, out);
        AccountsSnoc(parents, news, parent, isNew, true, partnership);
        AccountsSnoc(parents, news, parent, isNew, false, partnership);
        ThenAssoc(msgs, ParentPassMessages(parents, news), ResolutionMessage(isNew, parent));
        AppendAssoc(old(created), Accounts(parents, news, true, partnership),
          if isNew then [Resolved(parent, partnership)] else []);
        AppendAssoc(old(existing), Accounts(parents, news, false, partnership),
          if isNew then [] else [Resolved(parent, partnership)]);
        ParentStep(old(users), old(nextUserId), ps, i, before, parent, isNew, users, nextUserId);
        parents, news, out := parents + [parent], news + [isNew], next;
        cache := KeyUnion(cache, env.studentsOfParent(parent.id, roleLinks));
      }
      assert ps[..|ps|] == ps;
      ParentsAreFiled(old(users), old(nextUserId), ps);
    }

    /** One student: by email, else by name in the sibling cache, else a new
        account. `isNew` is whether an account was created. */
    method ResolveStudent(s: StudentInput, parents: seq<User>, cache: seq<User>, partnership: string, msgs: Messages)
      returns (student: User, isNew: bool, out: Messages)
      requires Valid()
      requires s.email.None? ==> |parents| > 0
      modifies this`users, this`nextUserId, this`created, this`existing
      ensures Valid()
      ensures var email := StudentEmail(env, s, parents);
        var sibling := FirstNameMatch(cache, s.name.firstName, s.name.lastName);
        && (isNew <==> email !in old(users) && sibling.None?)
        && student == (if email in old(users) then old(users)[email]
                       else if sibling.Some? then cache[sibling.value]
                       else User(old(nextUserId), s.name.firstName, s.name.lastName, email))
        && users == (if isNew then old(users)[email := student] else old(users))
      ensures nextUserId == old(nextUserId) + (if isNew then 1 else 0)
      ensures out == msgs.Then(ResolutionMessage(isNew, student))
      ensures created == old(created) + (if isNew then [Resolved(student, partnership)] else [])
      ensures existing == old(existing) + (if isNew then [] else [Resolved(student, partnership)])
    {
      var email := StudentEmail(env, s, parents);
      isNew := false;
      if email in users {
        student := users[email];
      } else {
        var sibling := MatchSibling(cache, s.name.firstName, s.name.lastName);
        if sibling.Some? {
          student := sibling.value;
        } else {
          student := CreateUser(s.name.firstName, s.name.lastName, email);
          isNew := true;
        }
      }
      if isNew {
        out := msgs.Then(Succeeded(AccountCreated(student)));
        created := created + [Resolved(student, partnership)];
      } else {
        out := msgs.Then(Warned(AccountAlreadyExists(student)));
        existing := existing + [Resolved(student, partnership)];
      }
    }

    /** A student's enrolments: a "no courses" error for an empty list,
        otherwise one student-role enrolment per listed course, each call's
        messages appended in order. */
    method EnrolStudent(student: User, courses: seq<CourseId>, msgs: Messages) returns (out: Messages)
      modifies this`enrolments
      ensures enrolments == old(enrolments) + CourseEnrolments(student.id, courses, env.studentRole)
      ensures out == msgs.Then(StudentCourseMessages(env, student, courses))
    {
      if |courses| == 0 {
        out := msgs.Then(Failed(NoCoursesFound(student)));
      } else {
        out := msgs;
        for i := 0 to |courses|
          invariant enrolments == old(enrolments) + CourseEnrolments(student.id, courses[..i], env.studentRole)
          invariant out == msgs.Then(EnrolMessages(env, student, courses[..i], env.studentRole))
        {
          assert courses[..i + 1][..i] == courses[..i];
          var result := env.enrol(student, courses[i], env.studentRole);
          enrolments := enrolments + [Enrolment(student.id, courses[i], env.studentRole)];
          out := out.Then(result);
        }
        assert courses[..|courses|] == courses;
      }
    }

    /** Assign each parent of the family to the student, appending each
        call's messages. */
    method LinkParents(student: User, parents: seq<User>, msgs: Messages) returns (out: Messages)
      modifies this`roleLinks
      ensures roleLinks == old(roleLinks) + ParentLinks(student.id, parents)
      ensures out == msgs.Then(LinkMessages(env, student, parents))
    {
      out := msgs;
      for i := 0 to |parents|
        invariant roleLinks == old(roleLinks) + ParentLinks(student.id, parents[..i])
        invariant out == msgs.Then(LinkMessages(env, student, parents[..i]))
      {
        assert parents[..i + 1][..i] == parents[..i];
        var linkResult := env.assignParentRole(student, parents[i]);
        roleLinks := roleLinks + [RoleLink(student.id, parents[i].id)];
        out := out.Then(linkResult);
      }
      assert parents[..|parents|] == parents;
    }

    /** One student of the family: resolve the account, enrol it in its own
        courses (adding them to the family's course list), and link it to
        every parent. */
    method ProcessStudent(s: StudentInput, parents: seq<User>, cache: seq<User>, partnership: string,
                          allcourses: seq<CourseId>, msgs: Messages)
      returns (student: User, isNew: bool, allcourses': seq<CourseId>, out: Messages)
      requires Valid()
      requires s.email.None? ==> |parents| > 0
      modifies this`users, this`nextUserId, this`created, this`existing, this`enrolments, this`roleLinks
      ensures Valid()
      ensures var email := StudentEmail(env, s, parents);
        var sibling := FirstNameMatch(cache, s.name.firstName, s.name.lastName);
        && (isNew <==> email !in old(users) && sibling.None?)
        && student == (if email in old(users) then old(users)[email]
                       else if sibling.Some? then cache[sibling.value]
                       else User(old(nextUserId), s.name.firstName, s.name.lastName, email))
        && users == (if isNew then old(users)[email := student] else old(users))
      ensures nextUserId == old(nextUserId) + (if isNew then 1 else 0)
      ensures enrolments == old(enrolments) + CourseEnrolments(student.id, s.courses, env.studentRole)
      ensures roleLinks == old(roleLinks) + ParentLinks(student.id, parents)
      ensures allcourses' == allcourses + s.courses
      ensures out == msgs.Then(StudentMessages(env, student, isNew, s.courses, parents))
      ensures created == old(created) + (if isNew then [Resolved(student, partnership)] else [])
      ensures existing == old(existing) + (if isNew then [] else [Resolved(student, partnership)])
    {
      var afterResolve;
      student, isNew, afterResolve := ResolveStudent(s, parents, cache, partnership, msgs);
      var afterCourses := EnrolStudent(student, s.courses, afterResolve);
      allcourses' := allcourses;
      if |s.courses| > 0 {
        allcourses' := allcourses + s.courses;
      }
      out := LinkParents(student, parents, afterCourses);
      var r := ResolutionMessage(isNew, student);
      ThenAssoc(msgs, r, StudentCourseMessages(env, student, s.courses));
      ThenAssoc(msgs, r.Then(StudentCourseMessages(env, student, s.courses)), LinkMessages(env, student, parents));
    }

    /** The student loop of a family. `news[k]` is whether student `k` was created. */
    method ProcessStudents(ss: seq<StudentInput>, parents: seq<User>, cache: seq<User>, partnership: string, msgs: Messages)
      returns (students: seq<User>, news: seq<bool>, allcourses: seq<CourseId>, out: Messages)
      requires Valid()
      requires StudentEmailsDefined(ss, parents)
      modifies this`users, this`nextUserId, this`created, this`existing, this`enrolments, this`roleLinks
      ensures Valid()
      ensures Pass(users, nextUserId, students, news) == ResolveAll(old(users), old(nextUserId), StudentRequests(env, ss, parents, cache))
      ensures |students| == |ss| == |news|
      ensures allcourses == AllCourses(ss)
      ensures enrolments == old(enrolments) + StudentEnrolments(students, ss, env.studentRole)
      ensures roleLinks == old(roleLinks) + Links(students, parents)
      ensures out == msgs.Then(StudentPassMessages(env, students, news, ss, parents))
      ensures created == old(created) + Accounts(students, news, true, partnership)
      ensures existing == old(existing) + Accounts(students, news, false, partnership)
    {
      students, news, allcourses, out := [], [], [], msgs;
      ghost var done: seq<StudentInput> := [];
      for i := 0 to |ss|
        invariant Valid()
        invariant done == ss[..i]
        invariant Pass(users, nextUserId, students, news) == ResolveAll(old(users), old(nextUserId), StudentRequests(env, done, parents, cache))
        invariant |students| == i == |news|
        invariant allcourses == AllCourses(done)
        invariant enrolments == old(enrolments) + StudentEnrolments(students, done, env.studentRole)
        invariant roleLinks == old(roleLinks) + Links(students, parents)
        invariant out == msgs.Then(StudentPassMessages(env, students, news, done, parents))
        invariant created == old(created) + Accounts(students, news, true, partnership)
        invariant existing == old(existing) + Accounts(students, news, false, partnership)
      {
        var s := ss[i];
        var student, isNew, next;
        ghost var before := Pass(users, nextUserId, students, news);
        student, isNew, allcourses, next := ProcessStudent(s, parents, cache, partnership, allcourses, out);
        StudentOutcomeIsLookup(env, s, parents, cache, before, student, isNew, users, nextUserId);
        StudentRequestsSnoc(env, done, parents, cache, s);
        AllCoursesSnoc(done, s);
        StudentEnrolmentsSnoc(students, done, student, s, env.studentRole);
        LinksSnoc(students, student, parents);
        StudentPassSnoc(env, students, news, done, parents, student, isNew, s);
        ThenAssoc(msgs, StudentPassMessages(env, students, news, done, parents),
          StudentMessages(env, student, isNew, s.courses, parents));
        AccountsSnoc(students, news, student, isNew, true, partnership);
        AccountsSnoc(students, news, student, isNew, false, partnership);
        AppendAssoc(old(enrolments), StudentEnrolments(students, done, env.studentRole),
          CourseEnrolments(student.id, s.courses, env.studentRole));
        AppendAssoc(old(roleLinks), Links(students, parents), ParentLinks(student.id, parents));
        AppendAssoc(old(created), Accounts(students, news, true, partnership),
          if isNew then [Resolved(student, partnership)] else []);
        AppendAssoc(old(existing), Accounts(students, news, false, partnership),
          if isNew then [] else [Resolved(student, partnership)]);
        ResolveAllSnoc(old(users), old(nextUserId), StudentRequests(env, done, parents, cache), StudentRequest(env, s, parents, cache));
        students, news, out := students + [student], news + [isNew], next;
        done := done + [s];
        TakeOneMore(ss, i);
      }
      assert done == ss;
    }

    /** Enrol every parent in every course of the list with the parent role. */
    method EnrolParents(parents: seq<User>, courses: seq<CourseId>, msgs: Messages) returns (out: Messages)
      modifies this`enrolments
      ensures enrolments == old(enrolments) + ParentEnrolments(parents, courses, env.parentRole)
      ensures out == msgs.Then(ParentEnrolMessages(env, parents, courses))
    {
      out := msgs;
      for i := 0 to |parents|
        invariant enrolments == old(enrolments) + ParentEnrolments(parents[..i], courses, env.parentRole)
        invariant out == msgs.Then(ParentEnrolMessages(env, parents[..i], courses))
      {
        assert parents[..i + 1][..i] == parents[..i];
        var p := parents[i];
        ghost var before, start := enrolments, out;
        for j := 0 to |courses|
          invariant enrolments == before + CourseEnrolments(p.id, courses[..j], env.parentRole)
          invariant out == start.Then(EnrolMessages(env, p, courses[..j], env.parentRole))
        {
          assert courses[..j + 1][..j] == courses[..j];
          assert CourseEnrolments(p.id, courses[..j + 1], env.parentRole)
            == CourseEnrolments(p.id, courses[..j], env.parentRole) + [Enrolment(p.id, courses[j], env.parentRole)];
          var result := env.enrol(p, courses[j], env.parentRole);
          ThenAssoc(start, EnrolMessages(env, p, courses[..j], env.parentRole), result);
        AppendAssoc(before, CourseEnrolments(p.id, courses[..j], env.parentRole), [Enrolment(p.id, courses[j], env.parentRole)]);
          enrolments := enrolments + [Enrolment(p.id, courses[j], env.parentRole)];
          out := out.Then(result);
        }
        assert courses[..|courses|] == courses;
        ThenAssoc(msgs, ParentEnrolMessages(env, parents[..i], courses), EnrolMessages(env, p, courses, env.parentRole));
        AppendAssoc(old(enrolments), ParentEnrolments(parents[..i], courses, env.parentRole),
          CourseEnrolments(p.id, courses, env.parentRole));
      }
      assert parents[..|parents|] == parents;
    }

    /** The two resolution passes of one family: the parents, then the
        students with the sibling cache the parents give. */
    method ResolveFamily(f: FamilyInput)
      returns (parents: seq<User>, parentNews: seq<bool>, students: seq<User>, studentNews: seq<bool>,
               allcourses: seq<CourseId>, messages: Messages)
      requires Valid() && StudentEmailsResolvable(f)
      modifies this`users, this`nextUserId, this`created, this`existing, this`enrolments, this`roleLinks
      ensures Valid()
      ensures |parents| == |f.parents| == |parentNews| && |students| == |f.students| == |studentNews|
      ensures IsFamilyPass(env, old(users), old(nextUserId), f, old(roleLinks), parents, parentNews,
        Pass(users, nextUserId, students, studentNews))
      ensures KeepsAccounts(old(users), users)
      ensures allcourses == AllCourses(f.students)
      ensures enrolments == old(enrolments) + StudentEnrolments(students, f.students, env.studentRole)
      ensures roleLinks == old(roleLinks) + Links(students, parents)
      ensures created == old(created) + Accounts(parents, parentNews, true, f.partnership)
        + Accounts(students, studentNews, true, f.partnership)
      ensures existing == old(existing) + Accounts(parents, parentNews, false, f.partnership)
        + Accounts(students, studentNews, false, f.partnership)
      ensures messages == ParentPassMessages(parents, parentNews).Then(StudentPassMessages(env, students, studentNews, f.students, parents))
    {
      var cache;
      parents, parentNews, cache, messages := ResolveParents(f.parents, f.partnership, NoMessages);
      NoMessagesThen(ParentPassMessages(parents, parentNews));
      ghost var afterParents := users;
      students, studentNews, allcourses, messages := ProcessStudents(f.students, parents, cache, f.partnership, messages);
      StoredAccountsWin(old(users), old(nextUserId), ParentRequests(f.parents));
      StoredAccountsWin(afterParents, ResolveAll(old(users), old(nextUserId), ParentRequests(f.parents)).next,
        StudentRequests(env, f.students, parents, cache));
    }

    /** One family, from empty messages to its notification. `thrown` is the
        "family has no users" exception. */
    method ProcessFamily(f: FamilyInput)
      returns (thrown: bool, parents: seq<User>, parentNews: seq<bool>, students: seq<User>, studentNews: seq<bool>,
               messages: Messages)
      requires Valid() && StudentEmailsResolvable(f)
      modifies this`users, this`nextUserId, this`created, this`existing, this`enrolments, this`roleLinks,
        this`notifications
      ensures Valid()
      ensures |parents| == |f.parents| == |parentNews| && |students| == |f.students| == |studentNews|
      ensures IsFamilyPass(env, old(users), old(nextUserId), f, old(roleLinks), parents, parentNews,
        Pass(users, nextUserId, students, studentNews))
      ensures KeepsAccounts(old(users), users)
      ensures thrown <==> NoUsers(f)
      ensures enrolments == old(enrolments) + StudentEnrolments(students, f.students, env.studentRole)
        + ParentEnrolments(parents, Dedup(AllCourses(f.students)), env.parentRole)
      ensures roleLinks == old(roleLinks) + Links(students, parents)
      ensures created == old(created) + Accounts(parents, parentNews, true, f.partnership)
        + Accounts(students, studentNews, true, f.partnership)
      ensures existing == old(existing) + Accounts(parents, parentNews, false, f.partnership)
        + Accounts(students, studentNews, false, f.partnership)
      ensures messages == FamilyMessages(env, parents, parentNews, students, studentNews, f.students)
      ensures thrown ==> notifications == old(notifications)
      ensures !thrown ==> (FamilyName(parents, students).Some?
        && notifications == old(notifications) + [Notification(FamilyName(parents, students).value, messages, StatusOf(messages))])
    {
      var allcourses;
      parents, parentNews, students, studentNews, allcourses, messages := ResolveFamily(f);
      var courses := Dedup(allcourses);
      messages := EnrolParents(parents, courses, messages);
      var status := StatusOf(messages);
      var familyname := FamilyName(parents, students);
      if familyname.None? {
        thrown := true;
      } else {
        thrown := false;
        notifications := notifications + [Notification(familyname.value, messages, status)];
      }
    }

    /** One iteration of the family loop, seen from the loop: whether the
        family threw, the accounts it added to `created_users` (`made`) and
        to `existing_users` (`found`), and what every family does to the
        state. */
    method NextFamily(f: FamilyInput) returns (thrown: bool, made: seq<Resolved>, found: seq<Resolved>)
      requires Valid() && StudentEmailsResolvable(f)
      modifies this`users, this`nextUserId, this`created, this`existing, this`enrolments, this`roleLinks,
        this`notifications
      ensures Valid()
      ensures KeepsAccounts(old(users), users)
      ensures thrown <==> NoUsers(f)
      ensures |notifications| == |old(notifications)| + (if thrown then 0 else 1)
      ensures created == old(created) + made && existing == old(existing) + found
      ensures |made| + |found| == |f.parents| + |f.students|
      ensures FreshAccounts(old(users), users, made)
    {
      var parents, parentNews, students, studentNews, messages;
      thrown, parents, parentNews, students, studentNews, messages := ProcessFamily(f);
      var p := f.partnership;
      made := Accounts(parents, parentNews, true, p) + Accounts(students, studentNews, true, p);
      found := Accounts(parents, parentNews, false, p) + Accounts(students, studentNews, false, p);
      AppendAssoc(old(created), Accounts(parents, parentNews, true, p), Accounts(students, studentNews, true, p));
      AppendAssoc(old(existing), Accounts(parents, parentNews, false, p), Accounts(students, studentNews, false, p));
      AccountsPartition(parents, parentNews, p);
      AccountsPartition(students, studentNews, p);
      assert EmailKeyed(users);
      FamilyCreatesFresh(env, old(users), old(nextUserId), f, old(roleLinks), p);
    }

    /** The upsert pass over `$allusers`. */
    method UpsertShadowProfiles(all: seq<Resolved>, now: int)
      modifies this`shadow, this`nextShadowId
      ensures (shadow, nextShadowId) == UpsertAll(old(shadow), old(nextShadowId), all, now)
    {
      for i := 0 to |all|
        invariant (shadow, nextShadowId) == UpsertAll(old(shadow), old(nextShadowId), all[..i], now)
      {
        assert all[..i + 1][..i] == all[..i];
        var u := all[i];
        var k := FirstRowOfUser(shadow, u.user.id);
        if k.Some? {
          shadow := shadow[k.value := shadow[k.value].(partnershipid := u.partnershipid, timemodified := now)];
        } else {
          shadow := shadow + [NewShadowRow(nextShadowId, u, now)];
          nextShadowId := nextShadowId + 1;
        }
      }
      assert all[..|all|] == all;
    }

    /** The sweep over every user id of the system: the merge helper is
        called, in order, for exactly the ids with more than one row. */
    method SweepDuplicates(ids: seq<UserId>, merge: (seq<ShadowRow>, UserId) -> seq<ShadowRow>)
      requires DistinctIds(ids) && MergeKeepsOthers(merge)
      modifies this`shadow, this`merged
      ensures merged == old(merged) + DuplicatedIds(ids, old(shadow))
    {
      for i := 0 to |ids|
        invariant merged == old(merged) + DuplicatedIds(ids[..i], old(shadow))
        invariant forall j :: i <= j < |ids| ==> CountRows(shadow, ids[j]) == CountRows(old(shadow), ids[j])
      {
        assert ids[..i + 1][..i] == ids[..i];
        var id := ids[i];
        var recordcount := CountRows(shadow, id);
        if recordcount > 1 {
          shadow := merge(shadow, id);
          merged := merged + [id];
        }
      }
      assert ids[..|ids|] == ids;
    }

    /** The family loop. The exception of a family with no users is caught
        outside the loop, so it skips every later family: `processed` is the
        number of families handled before it. */
    method ProcessFamilies(families: seq<FamilyInput>) returns (aborted: bool, processed: nat)
      requires Valid()
      requires forall k :: 0 <= k < |families| ==> StudentEmailsResolvable(families[k])
      modifies this`users, this`nextUserId, this`created, this`existing, this`enrolments, this`roleLinks,
        this`notifications
      ensures Valid()
      ensures KeepsAccounts(old(users), users)
      ensures processed <= |families|
      ensures forall k :: 0 <= k < processed ==> !NoUsers(families[k])
      ensures aborted <==> processed < |families|
      ensures aborted ==> NoUsers(families[processed])
      ensures |notifications| == |old(notifications)| + processed
      ensures |created| + |existing| >= |old(created)| + |old(existing)|
      ensures old(created) <= created && old(existing) <= existing
      ensures FreshAccounts(old(users), users, created[|old(created)|..])
    {
      aborted := false;
      processed := 0;
      while processed < |families|
        invariant Valid()
        invariant KeepsAccounts(old(users), users)
        invariant processed <= |families|
        invariant forall k :: 0 <= k < processed ==> !NoUsers(families[k])
        invariant |notifications| == |old(notifications)| + processed
        invariant |created| + |existing| >= |old(created)| + |old(existing)|
        invariant old(created) <= created && old(existing) <= existing
        invariant FreshAccounts(old(users), users, created[|old(created)|..])
      {
        ghost var before, batch := users, created[|old(created)|..];
        var thrown, made, found := NextFamily(families[processed]);
        KeepsAccountsTrans(old(users), before, users);
        FreshAppend(old(users), before, users, batch, made);
        assert created[|old(created)|..] == batch + made;
        if thrown {
          aborted := true;
          return;
        }
        processed := processed + 1;
      }
    }

    /** The whole upload: the family loop, then, unless a family aborted it,
        the upsert pass over `$allusers` (created accounts first, then the
        existing ones) and the duplicate sweep. */
    method Run(families: seq<FamilyInput>, now: int, systemUserIds: seq<UserId>,
               merge: (seq<ShadowRow>, UserId) -> seq<ShadowRow>)
      returns (aborted: bool, processed: nat)
      requires Valid()
      requires forall k :: 0 <= k < |families| ==> StudentEmailsResolvable(families[k])
      requires DistinctIds(systemUserIds) && MergeKeepsOthers(merge)
      modifies this`users, this`nextUserId, this`created, this`existing, this`enrolments, this`roleLinks,
        this`notifications, this`shadow, this`nextShadowId, this`merged
      ensures Valid()
      ensures KeepsAccounts(old(users), users)
      ensures processed <= |families|
      ensures forall k :: 0 <= k < processed ==> !NoUsers(families[k])
      ensures aborted <==> processed < |families|
      ensures aborted ==> NoUsers(families[processed])
      ensures |notifications| == |old(notifications)| + processed
      ensures old(created) <= created && FreshAccounts(old(users), users, created[|old(created)|..])
      ensures aborted ==> shadow == old(shadow) && nextShadowId == old(nextShadowId) && merged == old(merged)
      ensures !aborted ==>
        merged == old(merged) + DuplicatedIds(systemUserIds, UpsertAll(old(shadow), old(nextShadowId), created + existing, now).0)
    {
      aborted, processed := ProcessFamilies(families);
      if !aborted {
        StoreProfiles(now, systemUserIds, merge);
      }
    }

    /** After the family loop: the upsert pass over `$allusers` (created
        accounts first, then the existing ones), then the duplicate sweep. */
    method StoreProfiles(now: int, systemUserIds: seq<UserId>, merge: (seq<ShadowRow>, UserId) -> seq<ShadowRow>)
      requires DistinctIds(systemUserIds) && MergeKeepsOthers(merge)
      modifies this`shadow, this`nextShadowId, this`merged
      ensures merged == old(merged) + DuplicatedIds(systemUserIds, UpsertAll(old(shadow), old(nextShadowId), created + existing, now).0)
    {
      var allusers := created + existing;
      UpsertShadowProfiles(allusers, now);
      SweepDuplicates(systemUserIds, merge);
    }
  }

  /** After an upload that was not aborted, an account that had no shadow row
      and was processed (once or several times) has exactly one, and the merge
      helper is not called for it. */
  lemma ProcessedAccountGetsOneRow(table: seq<ShadowRow>, next: nat, all: seq<Resolved>, now: int,
                                   ids: seq<UserId>, k: nat)
    requires k < |all| && CountRows(table, all[k].user.id) == 0
    ensures CountRows(UpsertAll(table, next, all, now).0, all[k].user.id) == 1
    ensures all[k].user.id !in DuplicatedIds(ids, UpsertAll(table, next, all, now).0)
  {
    UpsertAllCounts(table, next, all, now, all[k].user.id);
  }
}
