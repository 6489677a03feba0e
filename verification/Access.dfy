/** Who may see a class or an exam, asked one by one and as list filters: backend/app/auth.py. */
module Access {
  import opened Options

  /** A grant with a subject shows that subject only; without one, all. */
  datatype Grant = Grant(teacher: nat, classId: nat, subject: Option<string>)
  datatype Class = Class(homeroom: Option<nat>, subject: string)
  datatype Exam = Exam(classId: nat, subject: Option<string>)
  datatype Tables = Tables(classes: map<nat, Class>, grants: seq<Grant>, secure: bool)

  datatype Caller = Anonymous | Teacher(id: nat, admin: bool)
  datatype Verdict = Allowed | Missing | Denied

  // ----- One by one --------------------------------------------------------------------------------

  predicate Granted(t: Tables, teacher: nat, classId: nat) {
    exists i :: 0 <= i < |t.grants| && t.grants[i].teacher == teacher && t.grants[i].classId == classId
  }

  function AssertClass(t: Tables, who: Caller, classId: nat): Verdict {
    if classId !in t.classes then Missing
    else match who
      case Anonymous => if t.secure then Denied else Allowed
      case Teacher(id, admin) =>
        if admin || t.classes[classId].homeroom == Some(id) || Granted(t, id, classId) then Allowed else Denied
  }

  /** The subjects of the teacher's restricted grants in the class. */
  predicate Bound(t: Tables, teacher: nat, classId: nat, subject: string) {
    exists i :: 0 <= i < |t.grants| && t.grants[i] == Grant(teacher, classId, Some(subject))
  }

  predicate BoundAtAll(t: Tables, teacher: nat, classId: nat) {
    exists i :: 0 <= i < |t.grants| && t.grants[i].teacher == teacher && t.grants[i].classId == classId && t.grants[i].subject.Some?
  }

  /** An empty subject counts as none here. */
  function ExamSubject(c: Class, e: Exam): string {
    if e.subject.None? || e.subject == Some("") then c.subject else e.subject.value
  }

  function AssertExam(t: Tables, who: Caller, e: Exam): Verdict {
    var v := AssertClass(t, who, e.classId);
    if v != Allowed || who.Anonymous? || who.admin || t.classes[e.classId].homeroom == Some(who.id) then v
    else if BoundAtAll(t, who.id, e.classId) && !Bound(t, who.id, e.classId, ExamSubject(t.classes[e.classId], e)) then Denied
    else Allowed
  }

  // ----- As filters -------------------------------------------------------------------------------

  /** Here only a null subject falls back to the class's. */
  predicate Admits(g: Grant, teacher: nat, c: Class, e: Exam) {
    g.teacher == teacher && g.classId == e.classId && (g.subject.None? || g.subject == Some(GetOr(e.subject, c.subject)))
  }

  predicate ExamListed(t: Tables, who: Caller, e: Exam) {
    && e.classId in t.classes
    && (who.Anonymous? || who.admin || t.classes[e.classId].homeroom == Some(who.id)
        || exists i :: 0 <= i < |t.grants| && Admits(t.grants[i], who.id, t.classes[e.classId], e))
  }

  /** None stands for no restriction. */
  function AllowedClassIds(t: Tables, who: Caller): Option<set<nat>> {
    if who.Anonymous? || who.admin then None
    else Some((set i | 0 <= i < |t.grants| && t.grants[i].teacher == who.id :: t.grants[i].classId)
              + (set c | c in t.classes && t.classes[c].homeroom == Some(who.id) :: c))
  }

  method CollectClassIds(t: Tables, who: Caller) returns (ids: Option<set<nat>>)
    ensures ids == AllowedClassIds(t, who)
  {
    if who.Anonymous? || who.admin { return None; }
    var granted: set<nat> := {};
    for i := 0 to |t.grants|
      invariant granted == set k | 0 <= k < i && t.grants[k].teacher == who.id :: t.grants[k].classId
    {
      if t.grants[i].teacher == who.id { granted := granted + {t.grants[i].classId}; }
    }
    granted := granted + (set c | c in t.classes && t.classes[c].homeroom == Some(who.id) :: c);
    ids := Some(granted);
  }

  // ----- They agree --------------------------------------------------------------------------------

  ghost predicate HasGrant(t: Tables, teacher: nat, classId: nat) {
    exists g :: g in t.grants && g.teacher == teacher && g.classId == classId
  }

  ghost predicate HasGrantFor(t: Tables, teacher: nat, classId: nat, subject: string) {
    exists g :: g in t.grants && g.teacher == teacher && g.classId == classId && g.subject == Some(subject)
  }

  /** A class is open to nobody but an administrator, its homeroom teacher and those with a grant; to the
      anonymous only where security is off. An unknown class is missing to everyone. */
  lemma ClassAllowedIff(t: Tables, who: Caller, classId: nat)
    ensures AssertClass(t, who, classId) == Missing <==> classId !in t.classes
    ensures AssertClass(t, who, classId) == Allowed <==>
            classId in t.classes &&
            match who
            case Anonymous => !t.secure
            case Teacher(id, admin) => admin || t.classes[classId].homeroom == Some(id) || HasGrant(t, id, classId)
  {
    if who.Teacher? && HasGrant(t, who.id, classId) {
      var g :| g in t.grants && g.teacher == who.id && g.classId == classId;
      var i :| 0 <= i < |t.grants| && t.grants[i] == g;
    }
  }

  /** An exam of the class is refused to a teacher with grants for single subjects only when none of them is the
      exam's subject, which is the class's where the exam names none. */
  lemma ExamAllowedIff(t: Tables, who: Caller, e: Exam)
    ensures AssertExam(t, who, e) == Allowed <==>
            AssertClass(t, who, e.classId) == Allowed &&
            match who
            case Anonymous => true
            case Teacher(id, admin) =>
              || admin || t.classes[e.classId].homeroom == Some(id)
              || !(exists subject :: HasGrantFor(t, id, e.classId, subject))
              || HasGrantFor(t, id, e.classId, if e.subject in [None, Some("")] then t.classes[e.classId].subject else e.subject.value)
  {
    hide AssertClass;
    if who.Teacher? && AssertClass(t, who, e.classId) == Allowed {
      forall subject ensures Bound(t, who.id, e.classId, subject) <==> HasGrantFor(t, who.id, e.classId, subject) {
        BoundIff(t, who.id, e.classId, subject);
      }
      BoundAtAllIff(t, who.id, e.classId);
      AllowedClassIsThere(t, who, e.classId);
    }
  }

  lemma AllowedClassIsThere(t: Tables, who: Caller, classId: nat)
    ensures AssertClass(t, who, classId) == Allowed ==> classId in t.classes
  {
  }

  lemma BoundIff(t: Tables, teacher: nat, classId: nat, subject: string)
    ensures Bound(t, teacher, classId, subject) <==> HasGrantFor(t, teacher, classId, subject)
  {
    if HasGrantFor(t, teacher, classId, subject) {
      var g :| g in t.grants && g.teacher == teacher && g.classId == classId && g.subject == Some(subject);
      var i :| 0 <= i < |t.grants| && t.grants[i] == g;
      assert t.grants[i] == Grant(teacher, classId, Some(subject));
    }
  }

  lemma BoundAtAllIff(t: Tables, teacher: nat, classId: nat)
    ensures BoundAtAll(t, teacher, classId) <==> exists subject :: HasGrantFor(t, teacher, classId, subject)
  {
    if i :| 0 <= i < |t.grants| && t.grants[i].teacher == teacher && t.grants[i].classId == classId && t.grants[i].subject.Some? {
      assert HasGrantFor(t, teacher, classId, t.grants[i].subject.value);
    }
    if subject :| HasGrantFor(t, teacher, classId, subject) {
      BoundIff(t, teacher, classId, subject);
    }
  }

  /** For a signed-in teacher the class list holds exactly the classes the assertion allows. */
  lemma ClassListAgrees(t: Tables, who: Caller, classId: nat)
    requires who.Teacher? && classId in t.classes
    ensures var ids := AllowedClassIds(t, who);
            ids.None? || classId in ids.value <==> AssertClass(t, who, classId) == Allowed
  {
    if !who.admin {
      if i :| 0 <= i < |t.grants| && t.grants[i].teacher == who.id && t.grants[i].classId == classId {
        assert t.grants[i].classId in AllowedClassIds(t, who).value;
      }
    }
  }

  /** The teacher holds an unrestricted grant in the class. */
  predicate Unrestricted(t: Tables, teacher: nat, classId: nat) {
    exists i :: 0 <= i < |t.grants| && t.grants[i] == Grant(teacher, classId, None)
  }

  /** The one row per teacher and class that the unique constraint allows. */
  ghost predicate OneGrantPerClass(t: Tables) {
    forall i, k | 0 <= i < k < |t.grants| :: t.grants[i].teacher != t.grants[k].teacher || t.grants[i].classId != t.grants[k].classId
  }

  lemma UniqueGrantsAreNotMixed(t: Tables, teacher: nat, classId: nat)
    requires OneGrantPerClass(t)
    ensures Unrestricted(t, teacher, classId) ==> !BoundAtAll(t, teacher, classId)
    ensures forall x, y | Bound(t, teacher, classId, x) && Bound(t, teacher, classId, y) :: x == y
  {
  }

  /** The subject the filter compares with. */
  function FilterSubject(c: Class, e: Exam): string {
    GetOr(e.subject, c.subject)
  }

  lemma AdmittedIff(t: Tables, teacher: nat, c: Class, e: Exam)
    ensures (exists i :: 0 <= i < |t.grants| && Admits(t.grants[i], teacher, c, e)) <==>
            Unrestricted(t, teacher, e.classId) || Bound(t, teacher, e.classId, FilterSubject(c, e))
  {
    if i :| 0 <= i < |t.grants| && t.grants[i] == Grant(teacher, e.classId, None) { assert Admits(t.grants[i], teacher, c, e); }
    if i :| 0 <= i < |t.grants| && t.grants[i] == Grant(teacher, e.classId, Some(FilterSubject(c, e))) {
      assert Admits(t.grants[i], teacher, c, e);
    }
    if i :| 0 <= i < |t.grants| && Admits(t.grants[i], teacher, c, e) {
      assert t.grants[i] == Grant(teacher, e.classId, None) || t.grants[i] == Grant(teacher, e.classId, Some(FilterSubject(c, e)));
    }
  }

  lemma GrantedIff(t: Tables, teacher: nat, classId: nat)
    ensures Granted(t, teacher, classId) <==> Unrestricted(t, teacher, classId) || BoundAtAll(t, teacher, classId)
  {
    if i :| 0 <= i < |t.grants| && t.grants[i].teacher == teacher && t.grants[i].classId == classId {
      assert t.grants[i] == Grant(teacher, classId, t.grants[i].subject);
    }
  }

  lemma BoundIsBoundAtAll(t: Tables, teacher: nat, classId: nat, subject: string)
    ensures Bound(t, teacher, classId, subject) ==> BoundAtAll(t, teacher, classId)
  {
  }

  /** The class is gone, or the teacher sees all of it. */
  predicate Privileged(t: Tables, who: Caller, classId: nat)
    requires who.Teacher?
  {
    classId !in t.classes || who.admin || t.classes[classId].homeroom == Some(who.id)
  }

  predicate Agree(t: Tables, who: Caller, e: Exam) {
    ExamListed(t, who, e) <==> AssertExam(t, who, e) == Allowed
  }

  /** For any grants and any exam, filter and assertion agree on a signed-in teacher exactly when the
      teacher is privileged, or holds an unrestricted grant and no restricted ones that all miss the
      asserted subject, or holds no unrestricted grant and both subjects or neither of them. */
  lemma ExamListAgreesIff(t: Tables, who: Caller, e: Exam)
    requires who.Teacher?
    ensures Agree(t, who, e) <==>
            || Privileged(t, who, e.classId)
            || var c, asserted := t.classes[e.classId], Bound(t, who.id, e.classId, ExamSubject(t.classes[e.classId], e));
               if Unrestricted(t, who.id, e.classId) then BoundAtAll(t, who.id, e.classId) ==> asserted
               else Bound(t, who.id, e.classId, FilterSubject(c, e)) <==> asserted
  {
    if e.classId in t.classes {
      var c := t.classes[e.classId];
      AdmittedIff(t, who.id, c, e);
      GrantedIff(t, who.id, e.classId);
      BoundIsBoundAtAll(t, who.id, e.classId, ExamSubject(c, e));
      BoundIsBoundAtAll(t, who.id, e.classId, FilterSubject(c, e));
      hide Granted, Bound, BoundAtAll, Unrestricted, Admits;
    }
  }

  /** With the one grant per class the tables allow, they agree on every exam whose subject is not
      the empty text. On the empty text, which one side reads as missing and the other does not, they
      agree exactly when the teacher is privileged, or the class's subject is empty as well, or the
      teacher's grant is for neither. */
  lemma ExamListAgrees(t: Tables, who: Caller, e: Exam)
    requires who.Teacher? && OneGrantPerClass(t)
    ensures e.subject != Some("") ==> Agree(t, who, e)
    ensures e.subject == Some("") ==>
              (Agree(t, who, e) <==>
               || Privileged(t, who, e.classId)
               || t.classes[e.classId].subject == ""
               || (!Bound(t, who.id, e.classId, "") && !Bound(t, who.id, e.classId, t.classes[e.classId].subject)))
  {
    ExamListAgreesIff(t, who, e);
    UniqueGrantsAreNotMixed(t, who.id, e.classId);
    if e.classId in t.classes {
      BoundIsBoundAtAll(t, who.id, e.classId, "");
      BoundIsBoundAtAll(t, who.id, e.classId, t.classes[e.classId].subject);
    }
    hide Agree, Bound, BoundAtAll, Unrestricted, OneGrantPerClass;
  }

  /** So the empty subject does break the agreement, for a teacher of just the class's subject. */
  lemma EmptySubjectDisagrees()
    ensures var t := Tables(map[1 := Class(None, "math")], [Grant(7, 1, Some("math"))], true);
            var e := Exam(1, Some(""));
            AssertExam(t, Teacher(7, false), e) == Allowed && !ExamListed(t, Teacher(7, false), e)
  {
    var t := Tables(map[1 := Class(None, "math")], [Grant(7, 1, Some("math"))], true);
    assert t.grants[0] == Grant(7, 1, Some("math"));
  }
}
