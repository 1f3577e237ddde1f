/**
 * SecurityConfig.securityFilterChain: the ordered table of request rules that
 * decides, before any handler runs, whether a caller may make a request. The
 * first rule whose HTTP method and path pattern match the request decides;
 * the last rule, whose pattern is a lone "**", matches every path.
 *
 * A path is its list of segments ("/users/me" is ["users", "me"]). A pattern
 * segment is a literal word, a template variable such as "{id}" (one non-empty
 * segment), or a trailing "**" (any number of remaining segments, none
 * included). The caller is anonymous or authenticated with one role.
 */
module SecurityConfig {
  import opened Wrappers
  import opened UserRole

  datatype HttpMethod = GET | HEAD | POST | PUT | PATCH | DELETE | OPTIONS | TRACE

  datatype Seg = Lit(word: string) | Var | Rest

  type Pattern = seq<Seg>

  /** permitAll, authenticated, or hasAnyAuthority / hasAuthority over "ROLE_" + role names. */
  datatype Access = PermitAll | Authenticated | AnyOf(roles: seq<Role>)

  /** requestMatchers with an optional HTTP method and one or more patterns. */
  datatype Rule = Rule(verb: Option<HttpMethod>, patterns: seq<Pattern>, access: Access)

  datatype Request = Request(verb: HttpMethod, path: seq<string>)

  function SegMatches(p: Seg, segment: string): bool
  {
    match p
    case Lit(w) => segment == w
    case Var => segment != ""
    case Rest => true
  }

  /** Whether pattern p matches the whole path. */
  function Matches(p: Pattern, path: seq<string>): bool
  {
    if |p| == 0 then |path| == 0
    else if p[0] == Rest then true
    else |path| > 0 && SegMatches(p[0], path[0]) && Matches(p[1..], path[1..])
  }

  /** A pattern made of literals and variables only, and the paths it matches. */
  lemma {:induction false} MatchesFixed(p: Pattern, path: seq<string>)
    requires forall i :: 0 <= i < |p| ==> p[i] != Rest
    ensures Matches(p, path) <==> |path| == |p| && forall i :: 0 <= i < |p| ==> SegMatches(p[i], path[i])
    decreases |p|
  {
    if |p| > 0 && |path| > 0 {
      MatchesFixed(p[1..], path[1..]);
      assert forall i :: 1 <= i < |p| ==> p[1..][i - 1] == p[i];
    }
  }

  /** A pattern ending in "**" matches exactly the paths that start with a match of its prefix. */
  lemma {:induction false} MatchesPrefix(p: Pattern, path: seq<string>)
    requires |p| > 0 && p[|p| - 1] == Rest
    requires forall i :: 0 <= i < |p| - 1 ==> p[i] != Rest
    ensures Matches(p, path) <==> |path| >= |p| - 1 && forall i :: 0 <= i < |p| - 1 ==> SegMatches(p[i], path[i])
    decreases |p|
  {
    if |p| > 1 && |path| > 0 {
      MatchesPrefix(p[1..], path[1..]);
      assert forall i :: 1 <= i < |p| - 1 ==> p[1..][i - 1] == p[i];
    }
  }

  predicate RuleMatches(r: Rule, q: Request)
  {
    && (r.verb.None? || r.verb.value == q.verb)
    && exists i :: 0 <= i < |r.patterns| && Matches(r.patterns[i], q.path)
  }

  /** The index of the first rule from index start on that matches q. */
  function FirstFrom(rules: seq<Rule>, q: Request, start: nat): (r: Option<nat>)
    requires start <= |rules|
    ensures r.Some? ==>
      && start <= r.value < |rules| && RuleMatches(rules[r.value], q)
      && forall j :: start <= j < r.value ==> !RuleMatches(rules[j], q)
    ensures r.None? ==> forall j :: start <= j < |rules| ==> !RuleMatches(rules[j], q)
    decreases |rules| - start
  {
    if start == |rules| then None
    else if RuleMatches(rules[start], q) then Some(start)
    else FirstFrom(rules, q, start + 1)
  }

  /** The rule that decides q: the first one that matches it. */
  function FirstMatch(rules: seq<Rule>, q: Request): (r: Option<nat>)
    ensures r.Some? ==>
      && r.value < |rules| && RuleMatches(rules[r.value], q)
      && forall j :: 0 <= j < r.value ==> !RuleMatches(rules[j], q)
    ensures r.None? <==> forall j :: 0 <= j < |rules| ==> !RuleMatches(rules[j], q)
  {
    FirstFrom(rules, q, 0)
  }

  /** Whether the access rule lets the caller (None when anonymous) through. */
  function Permits(a: Access, caller: Option<Role>): (b: bool)
    ensures a == PermitAll ==> b
    ensures a == Authenticated ==> (b <==> caller.Some?)
    ensures a.AnyOf? && caller.None? ==> !b
  {
    match a
    case PermitAll => true
    case Authenticated => caller.Some?
    case AnyOf(roles) =>
      caller.Some? && exists i :: 0 <= i < |roles| && HasAuthority(caller.value, "ROLE_" + Name(roles[i]))
  }

  /** hasAnyAuthority over the listed roles' authorities admits exactly the callers holding one of those roles. */
  lemma AnyOfAdmitsListedRoles(roles: seq<Role>, r: Role)
    ensures Permits(AnyOf(roles), Some(r)) <==> r in roles
  {
    forall i | 0 <= i < |roles|
      ensures HasAuthority(r, "ROLE_" + Name(roles[i])) <==> r == roles[i]
    {
      AuthorityIdentifiesRole(r, roles[i]);
    }
  }

  function Any(): Option<HttpMethod> { None }
  function Only(m: HttpMethod): Option<HttpMethod> { Some(m) }

  function Staff(): Access { AnyOf([INSTRUCTOR, ADMIN]) }

  const RuleCount: nat := 43

  /** Rule k of the table, in the order securityFilterChain lists them, section by section. */
  function RuleAt(k: nat): Rule
    requires k < RuleCount
  {
    if k < 2 then AuthRule(k)
    else if k < 4 then UserRule(k - 2)
    else if k < 9 then QuizRule(k - 4)
    else if k < 10 then QuestionRule(k - 9)
    else if k < 13 then AssignmentRule(k - 10)
    else if k < 16 then LessonRule(k - 13)
    else if k < 24 then StudentAssignmentRule(k - 16)
    else if k < 26 then StudentRule(k - 24)
    else if k < 29 then StudentLessonRule(k - 26)
    else if k < 34 then CourseRule(k - 29)
    else if k < 40 then EnrollmentRule(k - 34)
    else if k < 41 then NotificationRule(k - 40)
    else if k < 42 then AnalyticsRule(k - 41)
    else Rule(Any(), [[Rest]], AnyOf([ADMIN]))
  }

  /** Auth endpoints. */
  function AuthRule(i: nat): Rule
    requires i < 2
  {
    match i
    case 0 => Rule(Any(), [[Lit("auth"), Lit("login")]], PermitAll)
    case _ => Rule(Any(), [[Lit("auth"), Lit("register")]], PermitAll)
  }

  /** User endpoints. */
  function UserRule(i: nat): Rule
    requires i < 2
  {
    match i
    case 0 => Rule(Any(), [[Lit("users"), Lit("me")]], Authenticated)
    case _ => Rule(Any(), [[Lit("users"), Rest]], AnyOf([ADMIN]))
  }

  /** Quiz endpoints. */
  function QuizRule(i: nat): Rule
    requires i < 5
  {
    match i
    case 0 => Rule(Any(), [[Lit("quizzes"), Var]], AnyOf([STUDENT, INSTRUCTOR, ADMIN]))
    case 1 => Rule(Any(), [[Lit("quizzes"), Var, Lit("submit")]], AnyOf([STUDENT, ADMIN]))
    case 2 => Rule(Any(), [[Lit("quizzes")]], Staff())
    case 3 => Rule(Any(), [[Lit("quizzes"), Lit("courses"), Var]], Authenticated)
    case _ => Rule(Any(), [[Lit("quizzes"), Var, Lit("grades")]], Staff())
  }

  /** Question endpoints. */
  function QuestionRule(i: nat): Rule
    requires i < 1
  {
    Rule(Any(), [[Lit("questions"), Rest]], Staff())
  }

  /** Assignment endpoints. */
  function AssignmentRule(i: nat): Rule
    requires i < 3
  {
    match i
    case 0 => Rule(Only(GET), [[Lit("assignments"), Var]], Authenticated)
    case 1 => Rule(Only(GET), [[Lit("assignments"), Lit("courses"), Var]], Authenticated)
    case _ => Rule(Any(), [[Lit("assignments"), Rest]], Staff())
  }

  /** Lesson endpoints. */
  function LessonRule(i: nat): Rule
    requires i < 3
  {
    match i
    case 0 => Rule(Any(), [[Lit("lessons"), Lit("courses"), Var]], Authenticated)
    case 1 => Rule(Any(), [[Lit("lessons")]], Staff())
    case _ => Rule(Any(), [[Lit("lessons"), Rest]], Authenticated)
  }

  /** Student assignment endpoints. */
  function StudentAssignmentRule(i: nat): Rule
    requires i < 8
  {
    match i
    case 0 => Rule(Only(POST), [[Lit("student-assignments"), Lit("submissions"), Var]], AnyOf([STUDENT]))
    case 1 => Rule(Only(POST), [[Lit("student-assignments")]], AnyOf([STUDENT]))
    case 2 => Rule(Only(GET), [[Lit("student-assignments"), Var]], Authenticated)
    case 3 => Rule(Only(GET), [[Lit("student-assignments"), Lit("courses"), Var]], Authenticated)
    case 4 => Rule(Only(GET), [[Lit("student-assignments"), Lit("submissions"), Var]], Authenticated)
    case 5 => Rule(Only(DELETE), [[Lit("student-assignments"), Var]], Staff())
    case 6 => Rule(Only(PUT), [[Lit("student-assignments"), Lit("grade"), Var]], Staff())
    case _ => Rule(Any(), [[Lit("student-assignments"), Lit("users"), Rest]], Authenticated)
  }

  /** Student endpoints. */
  function StudentRule(i: nat): Rule
    requires i < 2
  {
    match i
    case 0 => Rule(Any(), [[Lit("students"), Lit("me"), Lit("quiz-grades")]], AnyOf([STUDENT]))
    case _ => Rule(Any(), [[Lit("students"), Var, Lit("quiz-grades")]], Staff())
  }

  /** Student lesson endpoints. */
  function StudentLessonRule(i: nat): Rule
    requires i < 3
  {
    match i
    case 0 => Rule(Any(), [[Lit("student-lessons")]], AnyOf([STUDENT]))
    case 1 => Rule(Any(), [[Lit("student-lessons"), Lit("students"), Lit("me"), Rest]], AnyOf([STUDENT]))
    case _ => Rule(Any(), [[Lit("student-lessons"), Lit("students"), Var, Rest]], Staff())
  }

  /** Course endpoints. */
  function CourseRule(i: nat): Rule
    requires i < 5
  {
    match i
    case 0 => Rule(Only(DELETE), [[Lit("courses"), Var]], AnyOf([ADMIN, INSTRUCTOR]))
    case 1 => Rule(Only(GET), [[Lit("courses"), Var, Lit("material")]], Authenticated)
    case 2 => Rule(Only(POST), [[Lit("courses"), Var, Lit("material")]], Staff())
    case 3 => Rule(Only(POST), [[Lit("courses")]], Staff())
    case _ => Rule(Only(GET), [[Lit("courses")], [Lit("courses"), Var]], Authenticated)
  }

  /** Enrollment endpoints. */
  function EnrollmentRule(i: nat): Rule
    requires i < 6
  {
    match i
    case 0 => Rule(Only(POST), [[Lit("enrollments"), Lit("courses"), Var]], AnyOf([STUDENT]))
    case 1 => Rule(Only(GET), [[Lit("enrollments")]], AnyOf([ADMIN]))
    case 2 => Rule(Any(), [[Lit("enrollments"), Var]], Authenticated)
    case 3 => Rule(Only(GET), [[Lit("enrollments"), Lit("courses"), Var]], AnyOf([INSTRUCTOR]))
    case 4 => Rule(Only(GET), [[Lit("enrollments"), Lit("students"), Var]], Authenticated)
    case _ => Rule(Only(GET), [[Lit("enrollments"), Lit("students"), Var, Lit("courses"), Var]], Authenticated)
  }

  /** Notification endpoints. */
  function NotificationRule(i: nat): Rule
    requires i < 1
  {
    Rule(Any(), [[Lit("notifications"), Lit("**}")]], Authenticated)
  }

  /** Analytics endpoints. */
  function AnalyticsRule(i: nat): Rule
    requires i < 1
  {
    Rule(Any(), [[Lit("analytics"), Rest]], Staff())
  }

  /** The rules, in order. */
  function Table(): (t: seq<Rule>)
    ensures |t| == RuleCount && forall k :: 0 <= k < RuleCount ==> t[k] == RuleAt(k)
  {
    seq(RuleCount, k requires 0 <= k < RuleCount => RuleAt(k))
  }

  /** The access decision for request q by caller: the first matching rule's access, and refusal if none matches. */
  function Decide(q: Request, caller: Option<Role>): bool
  {
    var r := FirstMatch(Table(), q);
    r.Some? && Permits(Table()[r.value].access, caller)
  }

  /**
   * The first path word shared by every rule of the section that rule k
   * belongs to, as the table is laid out in sections per controller; the last
   * rule has none.
   */
  function SectionWord(k: nat): string
  {
    if k < 2 then "auth"
    else if k < 4 then "users"
    else if k < 9 then "quizzes"
    else if k < 10 then "questions"
    else if k < 13 then "assignments"
    else if k < 16 then "lessons"
    else if k < 24 then "student-assignments"
    else if k < 26 then "students"
    else if k < 29 then "student-lessons"
    else if k < 34 then "courses"
    else if k < 40 then "enrollments"
    else if k < 41 then "notifications"
    else if k < 42 then "analytics"
    else ""
  }

  /** Every pattern in ps starts with the literal word w. */
  predicate Leads(ps: seq<Pattern>, w: string)
  {
    |ps| == 0 || (|ps[0]| > 0 && ps[0][0] == Lit(w) && Leads(ps[1..], w))
  }

  /** Every rule from start to end (excluded) has only patterns led by its section's word. */
  predicate AllLead(start: nat, end: nat)
    requires start <= end <= RuleCount
    decreases end - start
  {
    start == end || (Leads(RuleAt(start).patterns, SectionWord(start)) && AllLead(start + 1, end))
  }

  lemma {:induction false} AllLeadAt(start: nat, end: nat, k: nat)
    requires start <= k < end <= RuleCount && AllLead(start, end)
    ensures Leads(RuleAt(k).patterns, SectionWord(k))
    decreases end - start
  {
    if start < k {
      AllLeadAt(start + 1, end, k);
    }
  }

  lemma {:induction false} AllLeadJoin(start: nat, mid: nat, end: nat)
    requires start <= mid <= end <= RuleCount
    requires AllLead(start, mid) && AllLead(mid, end)
    ensures AllLead(start, end)
    decreases mid - start
  {
    if start < mid {
      AllLeadJoin(start + 1, mid, end);
    }
  }

  lemma LeadsInFirstSections(k: nat)
    requires k < 20
    ensures Leads(RuleAt(k).patterns, SectionWord(k))
  {
    assert AllLead(0, 10);
    assert AllLead(10, 20);
    AllLeadJoin(0, 10, 20);
    AllLeadAt(0, 20, k);
  }

  lemma LeadsInLastSections(k: nat)
    requires 20 <= k < RuleCount - 1
    ensures Leads(RuleAt(k).patterns, SectionWord(k))
  {
    assert AllLead(20, 30);
    assert AllLead(30, 42);
    AllLeadJoin(20, 30, 42);
    AllLeadAt(20, 42, k);
  }

  /** Every rule but the last starts, in all its patterns, with its section's word. */
  lemma SectionsLead(k: nat)
    requires k < RuleCount - 1
    ensures Leads(RuleAt(k).patterns, SectionWord(k))
  {
    if k < 20 {
      LeadsInFirstSections(k);
    } else {
      LeadsInLastSections(k);
    }
  }

  lemma {:induction false} LeadsNoMatch(ps: seq<Pattern>, w: string, path: seq<string>)
    requires |path| > 0 && path[0] != w && Leads(ps, w)
    ensures forall i :: 0 <= i < |ps| ==> !Matches(ps[i], path)
  {
    if |ps| > 0 {
      LeadsNoMatch(ps[1..], w, path);
      assert forall i :: 1 <= i < |ps| ==> ps[i] == ps[1..][i - 1];
    }
  }

  /** No rule of a section led by another word matches a path. */
  lemma OtherSectionsNoMatch(q: Request, start: nat, end: nat)
    requires start <= end <= RuleCount - 1 && |q.path| > 0
    requires forall j :: start <= j < end ==> SectionWord(j) != q.path[0]
    ensures forall j :: start <= j < end ==> !RuleMatches(Table()[j], q)
  {
    forall j | start <= j < end
      ensures !RuleMatches(Table()[j], q)
    {
      SectionsLead(j);
      LeadsNoMatch(RuleAt(j).patterns, SectionWord(j), q.path);
    }
  }

  /** The intended reading of an access rule: by the caller's role. */
  function Admits(a: Access, caller: Option<Role>): bool
  {
    match a
    case PermitAll => true
    case Authenticated => caller.Some?
    case AnyOf(roles) => caller.Some? && caller.value in roles
  }

  /** Checking "ROLE_" authorities is the same as checking the caller's role. */
  lemma PermitsByRole(a: Access, caller: Option<Role>)
    ensures Permits(a, caller) <==> Admits(a, caller)
  {
    if a.AnyOf? && caller.Some? {
      AnyOfAdmitsListedRoles(a.roles, caller.value);
    }
  }

  /** A rule that matches q, with no earlier rule matching, decides q. */
  lemma DecidedBy(q: Request, k: nat, caller: Option<Role>)
    requires k < RuleCount
    requires RuleMatches(Table()[k], q)
    requires forall j :: 0 <= j < k ==> !RuleMatches(Table()[j], q)
    ensures FirstMatch(Table(), q) == Some(k)
    ensures Decide(q, caller) <==> Admits(RuleAt(k).access, caller)
  {
    PermitsByRole(RuleAt(k).access, caller);
  }

  /** The last rule matches every path, so every request is decided by some rule. */
  lemma EveryRequestDecided(q: Request)
    ensures FirstMatch(Table(), q).Some?
  {
    assert Matches(RuleAt(RuleCount - 1).patterns[0], q.path);
    assert RuleMatches(Table()[RuleCount - 1], q);
  }

  /** A request that no named rule matches falls to the last rule and is for administrators only. */
  lemma UnlistedAdminOnly(q: Request, caller: Option<Role>)
    requires forall j :: 0 <= j < RuleCount - 1 ==> !RuleMatches(Table()[j], q)
    ensures Decide(q, caller) <==> caller == Some(ADMIN)
  {
    assert Matches(RuleAt(RuleCount - 1).patterns[0], q.path);
    DecidedBy(q, RuleCount - 1, caller);
  }

  /** Anyone, signed in or not, may log in or register, with any HTTP method. */
  lemma AuthIsOpen(m: HttpMethod, caller: Option<Role>)
    ensures Decide(Request(m, ["auth", "login"]), caller)
    ensures Decide(Request(m, ["auth", "register"]), caller)
  {
    var login := Request(m, ["auth", "login"]);
    assert Matches(RuleAt(0).patterns[0], login.path);
    DecidedBy(login, 0, caller);
    var register := Request(m, ["auth", "register"]);
    assert Matches(RuleAt(1).patterns[0], register.path);
    assert !Matches(RuleAt(0).patterns[0], register.path);
    DecidedBy(register, 1, caller);
  }

  /** Only the first two rules, login and register, are open to everyone. */
  lemma OnlyAuthRulesOpen(k: nat)
    requires k < RuleCount && RuleAt(k).access == PermitAll
    ensures k < 2
  {
  }

  lemma AnonymousReachesOnlyAuth(q: Request)
    requires Decide(q, None)
    ensures q.path == ["auth", "login"] || q.path == ["auth", "register"]
  {
    var k := FirstMatch(Table(), q).value;
    assert Permits(RuleAt(k).access, None);
    OnlyAuthRulesOpen(k);
    var p := RuleAt(k).patterns[0];
    assert RuleAt(k).patterns == [p];
    assert Matches(p, q.path);
    MatchesFixed(p, q.path);
    assert q.path == [q.path[0], q.path[1]];
  }

  /** An anonymous caller gets through on exactly the login and register paths. */
  lemma AnonymousOnlyAuth(q: Request)
    ensures Decide(q, None) <==> q.path == ["auth", "login"] || q.path == ["auth", "register"]
  {
    AuthIsOpen(q.verb, None);
    if Decide(q, None) {
      AnonymousReachesOnlyAuth(q);
    }
  }

  /** /users/me is open to every signed-in caller. */
  lemma UsersMeNeedsSignIn(m: HttpMethod, caller: Option<Role>)
    ensures Decide(Request(m, ["users", "me"]), caller) <==> caller.Some?
  {
    var q := Request(m, ["users", "me"]);
    OtherSectionsNoMatch(q, 0, 2);
    assert Matches(RuleAt(2).patterns[0], q.path);
    DecidedBy(q, 2, caller);
  }

  /** Every other path under /users is for administrators only. */
  lemma UsersAdminOnly(m: HttpMethod, rest: seq<string>, caller: Option<Role>)
    requires rest != ["me"]
    ensures Decide(Request(m, ["users"] + rest), caller) <==> caller == Some(ADMIN)
  {
    var q := Request(m, ["users"] + rest);
    assert q.path[0] == "users" && q.path[1..] == rest;
    OtherSectionsNoMatch(q, 0, 2);
    MatchesFixed(RuleAt(2).patterns[0], q.path);
    assert !Matches(RuleAt(2).patterns[0], q.path);
    assert Matches(RuleAt(3).patterns[0], q.path);
    DecidedBy(q, 3, caller);
  }

  /** Submitting a quiz is for students and administrators, not instructors. */
  lemma QuizSubmitStudentOrAdmin(m: HttpMethod, quizId: string, caller: Option<Role>)
    requires quizId != ""
    ensures Decide(Request(m, ["quizzes", quizId, "submit"]), caller) <==>
      caller == Some(STUDENT) || caller == Some(ADMIN)
  {
    var q := Request(m, ["quizzes", quizId, "submit"]);
    OtherSectionsNoMatch(q, 0, 4);
    MatchesFixed(RuleAt(4).patterns[0], q.path);
    MatchesFixed(RuleAt(5).patterns[0], q.path);
    DecidedBy(q, 5, caller);
  }

  /** Creating a quiz (the bare /quizzes path) is for instructors and administrators. */
  lemma QuizCreateStaff(m: HttpMethod, caller: Option<Role>)
    ensures Decide(Request(m, ["quizzes"]), caller) <==> caller == Some(INSTRUCTOR) || caller == Some(ADMIN)
  {
    var q := Request(m, ["quizzes"]);
    OtherSectionsNoMatch(q, 0, 4);
    MatchesFixed(RuleAt(4).patterns[0], q.path);
    MatchesFixed(RuleAt(5).patterns[0], q.path);
    MatchesFixed(RuleAt(6).patterns[0], q.path);
    DecidedBy(q, 6, caller);
  }

  /** Everything under /questions, the analytics endpoints included, is for instructors and administrators. */
  lemma QuestionsStaff(m: HttpMethod, rest: seq<string>, caller: Option<Role>)
    ensures Decide(Request(m, ["questions"] + rest), caller) <==> caller == Some(INSTRUCTOR) || caller == Some(ADMIN)
  {
    var q := Request(m, ["questions"] + rest);
    assert q.path[0] == "questions";
    OtherSectionsNoMatch(q, 0, 9);
    assert Matches(RuleAt(9).patterns[0], q.path);
    DecidedBy(q, 9, caller);
  }

  /** Reading one assignment is open to every signed-in caller. */
  lemma AssignmentReadSignedIn(id: string, caller: Option<Role>)
    requires id != ""
    ensures Decide(Request(GET, ["assignments", id]), caller) <==> caller.Some?
  {
    var q := Request(GET, ["assignments", id]);
    OtherSectionsNoMatch(q, 0, 10);
    MatchesFixed(RuleAt(10).patterns[0], q.path);
    DecidedBy(q, 10, caller);
  }

  /** Every request under /assignments other than a GET is for instructors and administrators. */
  lemma AssignmentWritesStaff(m: HttpMethod, rest: seq<string>, caller: Option<Role>)
    requires m != GET
    ensures Decide(Request(m, ["assignments"] + rest), caller) <==> caller == Some(INSTRUCTOR) || caller == Some(ADMIN)
  {
    var q := Request(m, ["assignments"] + rest);
    assert q.path[0] == "assignments";
    OtherSectionsNoMatch(q, 0, 10);
    assert Matches(RuleAt(12).patterns[0], q.path);
    DecidedBy(q, 12, caller);
  }

  /** Creating an assignment submission is for students only: administrators are refused. */
  lemma SubmissionCreateStudentOnly(caller: Option<Role>)
    ensures Decide(Request(POST, ["student-assignments"]), caller) <==> caller == Some(STUDENT)
  {
    var q := Request(POST, ["student-assignments"]);
    OtherSectionsNoMatch(q, 0, 16);
    MatchesFixed(RuleAt(16).patterns[0], q.path);
    MatchesFixed(RuleAt(17).patterns[0], q.path);
    DecidedBy(q, 17, caller);
  }

  /** Uploading a submission's file is for students only as well. */
  lemma SubmissionUploadStudentOnly(id: string, caller: Option<Role>)
    requires id != ""
    ensures Decide(Request(POST, ["student-assignments", "submissions", id]), caller) <==> caller == Some(STUDENT)
  {
    var q := Request(POST, ["student-assignments", "submissions", id]);
    OtherSectionsNoMatch(q, 0, 16);
    MatchesFixed(RuleAt(16).patterns[0], q.path);
    DecidedBy(q, 16, caller);
  }

  /** Grading a submission is for instructors and administrators. */
  lemma GradeSubmissionStaff(id: string, caller: Option<Role>)
    requires id != ""
    ensures Decide(Request(PUT, ["student-assignments", "grade", id]), caller) <==>
      caller == Some(INSTRUCTOR) || caller == Some(ADMIN)
  {
    var q := Request(PUT, ["student-assignments", "grade", id]);
    OtherSectionsNoMatch(q, 0, 16);
    MatchesFixed(RuleAt(22).patterns[0], q.path);
    DecidedBy(q, 22, caller);
  }

  /** Creating a lesson (the bare /lessons path) is for instructors and administrators. */
  lemma LessonCreateStaff(m: HttpMethod, caller: Option<Role>)
    ensures Decide(Request(m, ["lessons"]), caller) <==> caller == Some(INSTRUCTOR) || caller == Some(ADMIN)
  {
    var q := Request(m, ["lessons"]);
    OtherSectionsNoMatch(q, 0, 13);
    MatchesFixed(RuleAt(13).patterns[0], q.path);
    MatchesFixed(RuleAt(14).patterns[0], q.path);
    DecidedBy(q, 14, caller);
  }

  /**
   * Every longer path under /lessons, updating a lesson included, is open to
   * every signed-in caller: the instructor check is left to the service.
   */
  lemma LessonPathsSignedIn(m: HttpMethod, rest: seq<string>, caller: Option<Role>)
    requires rest != []
    ensures Decide(Request(m, ["lessons"] + rest), caller) <==> caller.Some?
  {
    var q := Request(m, ["lessons"] + rest);
    assert q.path[0] == "lessons" && |q.path| > 1;
    OtherSectionsNoMatch(q, 0, 13);
    if RuleMatches(Table()[13], q) {
      DecidedBy(q, 13, caller);
    } else {
      MatchesFixed(RuleAt(14).patterns[0], q.path);
      assert Matches(RuleAt(15).patterns[0], q.path);
      DecidedBy(q, 15, caller);
    }
  }

  /** Deleting a course is for administrators and instructors. */
  lemma CourseDeleteStaff(id: string, caller: Option<Role>)
    requires id != ""
    ensures Decide(Request(DELETE, ["courses", id]), caller) <==> caller == Some(ADMIN) || caller == Some(INSTRUCTOR)
  {
    var q := Request(DELETE, ["courses", id]);
    OtherSectionsNoMatch(q, 0, 29);
    MatchesFixed(RuleAt(29).patterns[0], q.path);
    DecidedBy(q, 29, caller);
  }

  /** Reading the course list is open to every signed-in caller. */
  lemma CourseListSignedIn(caller: Option<Role>)
    ensures Decide(Request(GET, ["courses"]), caller) <==> caller.Some?
  {
    var q := Request(GET, ["courses"]);
    OtherSectionsNoMatch(q, 0, 29);
    MatchesFixed(RuleAt(30).patterns[0], q.path);
    assert Matches(RuleAt(33).patterns[0], q.path);
    DecidedBy(q, 33, caller);
  }

  /** Reading one course is open to every signed-in caller. */
  lemma CourseReadSignedIn(id: string, caller: Option<Role>)
    requires id != ""
    ensures Decide(Request(GET, ["courses", id]), caller) <==> caller.Some?
  {
    var q := Request(GET, ["courses", id]);
    OtherSectionsNoMatch(q, 0, 29);
    MatchesFixed(RuleAt(30).patterns[0], q.path);
    MatchesFixed(RuleAt(33).patterns[1], q.path);
    DecidedBy(q, 33, caller);
  }

  /** Listing every enrollment is for administrators only. */
  lemma AllEnrollmentsAdminOnly(caller: Option<Role>)
    ensures Decide(Request(GET, ["enrollments"]), caller) <==> caller == Some(ADMIN)
  {
    var q := Request(GET, ["enrollments"]);
    OtherSectionsNoMatch(q, 0, 34);
    MatchesFixed(RuleAt(35).patterns[0], q.path);
    DecidedBy(q, 35, caller);
  }

  /** Listing a course's enrollments is for instructors only: administrators are refused. */
  lemma CourseEnrollmentsInstructorOnly(courseId: string, caller: Option<Role>)
    requires courseId != ""
    ensures Decide(Request(GET, ["enrollments", "courses", courseId]), caller) <==> caller == Some(INSTRUCTOR)
  {
    var q := Request(GET, ["enrollments", "courses", courseId]);
    OtherSectionsNoMatch(q, 0, 34);
    MatchesFixed(RuleAt(35).patterns[0], q.path);
    MatchesFixed(RuleAt(36).patterns[0], q.path);
    MatchesFixed(RuleAt(37).patterns[0], q.path);
    DecidedBy(q, 37, caller);
  }

  /**
   * The notifications rule names the literal segment "**}", so no real
   * notifications path matches it: every request under /notifications other
   * than that one path falls to the last rule and is for administrators only.
   */
  lemma NotificationsAdminOnly(m: HttpMethod, rest: seq<string>, caller: Option<Role>)
    requires rest != ["**}"]
    ensures Decide(Request(m, ["notifications"] + rest), caller) <==> caller == Some(ADMIN)
  {
    var q := Request(m, ["notifications"] + rest);
    assert q.path[0] == "notifications" && q.path[1..] == rest;
    OtherSectionsNoMatch(q, 0, 40);
    MatchesFixed(RuleAt(40).patterns[0], q.path);
    assert !Matches(RuleAt(40).patterns[0], q.path);
    OtherSectionsNoMatch(q, 41, 42);
    UnlistedAdminOnly(q, caller);
  }
}
