/** The Student document and its embedded skills. */
module StudentSchema {
  import opened Wrappers
  import opened SchemaRules
  import Text

  datatype SkillLevel = Beginner | Intermediate | Advanced | Expert

  function SkillLevelName(l: SkillLevel): string {
    match l
    case Beginner => "Beginner"
    case Intermediate => "Intermediate"
    case Advanced => "Advanced"
    case Expert => "Expert"
  }

  /** The enum check on a skill's `level`. */
  function ParseSkillLevel(v: string): (r: Option<SkillLevel>)
    ensures r.Some? ==> SkillLevelName(r.value) == v
    ensures r.None? ==> forall l :: SkillLevelName(l) != v
  {
    if v == "Beginner" then Some(Beginner)
    else if v == "Intermediate" then Some(Intermediate)
    else if v == "Advanced" then Some(Advanced)
    else if v == "Expert" then Some(Expert)
    else None
  }

  datatype Skill = Skill(name: string, level: SkillLevel)

  /** A skill as a caller writes it. */
  datatype SkillDoc = SkillDoc(name: Option<string>, level: Option<string>)

  function SkillErrors(prefix: string, d: SkillDoc): seq<FieldError> {
    CheckRequired(prefix + "name", "name", d.name)
    + (if d.level.Some? && ParseSkillLevel(d.level.value).None?
       then [EnumError(prefix + "level", "level", d.level.value)] else [])
  }

  /** A skill casts when its name is non-empty and its level, if given, is in the enum;
      the level defaults to Beginner. */
  function CastSkill(prefix: string, d: SkillDoc): (r: Result<Skill, seq<FieldError>>)
    ensures r.Ok? <==> RequiredString(d.name) && (d.level.None? || ParseSkillLevel(d.level.value).Some?)
    ensures r.Ok? ==> r.value.name == d.name.value && SkillLevelName(r.value.level) == d.level.GetOr("Beginner")
    ensures r.Err? ==> r.error != []
  {
    var errs := SkillErrors(prefix, d);
    if errs != [] then Err(errs)
    else Ok(Skill(d.name.value, if d.level.None? then Beginner else ParseSkillLevel(d.level.value).value))
  }

  /** The skills array: element `i` is validated under the path `skills.<i>.`. */
  function CastSkills(d: seq<SkillDoc>, from: nat): (r: Result<seq<Skill>, seq<FieldError>>)
    ensures r.Ok? <==> forall i :: 0 <= i < |d| ==> CastSkill("", d[i]).Ok?
    ensures r.Ok? ==> |r.value| == |d| && forall i :: 0 <= i < |d| ==> Ok(r.value[i]) == CastSkill("", d[i])
  {
    if d == [] then Ok([])
    else
      var head := CastSkill("skills." + Text.NatToString(from) + ".", d[0]);
      var tail := CastSkills(d[1..], from + 1);
      if head.Ok? && tail.Ok? then Ok([head.value] + tail.value)
      else Err((if head.Err? then head.error else []) + (if tail.Err? then tail.error else []))
  }

  datatype Student = Student(
    name: string,
    email: string,
    rollNumber: string,
    university: Option<string>,
    degree: Option<string>,
    major: Option<string>,
    graduationYear: Option<string>,
    skills: seq<Skill>,
    reports: seq<nat>,
    createdAt: nat,
    updatedAt: nat)

  datatype StudentDoc = StudentDoc(
    name: Option<string>,
    email: Option<string>,
    rollNumber: Option<string>,
    university: Option<string>,
    degree: Option<string>,
    major: Option<string>,
    graduationYear: Option<string>,
    skills: seq<SkillDoc>)

  function StudentErrors(d: StudentDoc): seq<FieldError> {
    CheckRequired("name", "name", d.name)
    + CheckRequired("email", "email", d.email)
    + CheckRequired("rollNumber", "rollNumber", d.rollNumber)
  }

  /** `new Student(doc)` validated for `save()`: name, email and rollNumber are required,
      every skill must cast, there are no reports yet and both dates are the current time.
      The uniqueness of email and rollNumber is an index of the collection, not part of the
      cast; the store checks it. */
  function CastStudent(d: StudentDoc, now: nat): (r: Result<Student, string>)
    ensures r.Ok? <==> RequiredString(d.name) && RequiredString(d.email) && RequiredString(d.rollNumber)
                       && forall i :: 0 <= i < |d.skills| ==> CastSkill("", d.skills[i]).Ok?
    ensures r.Ok? ==> r.value.name == d.name.value && r.value.email == d.email.value
                      && r.value.rollNumber == d.rollNumber.value
    ensures r.Ok? ==> r.value.university == d.university && r.value.degree == d.degree
                      && r.value.major == d.major && r.value.graduationYear == d.graduationYear
    ensures r.Ok? ==> |r.value.skills| == |d.skills|
                      && forall i :: 0 <= i < |d.skills| ==> Ok(r.value.skills[i]) == CastSkill("", d.skills[i])
    ensures r.Ok? ==> r.value.reports == [] && r.value.createdAt == now && r.value.updatedAt == now
  {
    var skills := CastSkills(d.skills, 0);
    var errs := StudentErrors(d) + (if skills.Err? then skills.error else []);
    if errs != [] || skills.Err? then Err(ValidationMessage("Student", errs))
    else Ok(Student(d.name.value, d.email.value, d.rollNumber.value, d.university, d.degree,
                    d.major, d.graduationYear, skills.value, [], now, now))
  }
}
