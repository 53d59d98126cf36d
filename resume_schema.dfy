/** The request-body schemas of the resume routes: one create schema per resource type,
    the resume schema, and the update schemas, in which every key is optional.
    A body is the parsed JSON with `None` for a missing key. Dates are millisecond
    timestamps and `now` is a parameter; JSON numbers are `real`s. Joi's `email()` and
    `uri()` grammars are the parameters `lib.isEmail` and `lib.isUri`. */
module ResumeSchema {
  import opened Common

  // ---------------------------------------------------------------- values

  datatype SocialUrls = SocialUrls(
    linkedin: Option<string>, github: Option<string>, portfolio: Option<string>,
    leetcode: Option<string>, hackerrank: Option<string>)

  /** A column value as stored in a table row. */
  datatype Value =
    | Null | Text(s: string) | Int(i: int) | Date(t: Timestamp) | Flag(b: bool)
    | Links(urls: SocialUrls)   // a JSONB object
    | Ids(ids: seq<int>)        // an INTEGER[] array

  /** The columns of one row, by column name. */
  type Columns = map<string, Value>

  /** One key of a validated update value (`None`: the key is undefined). */
  datatype Field = Field(key: string, val: Option<Value>)

  /** The library validators whose grammar is not modelled. */
  datatype Lib = Lib(isEmail: string -> bool, isUri: string -> bool)

  /** The seven resource tables. */
  datatype Kind = PersonalInfo | Summary | WorkExperience | Project | Skill | Education | Certification

  // ---------------------------------------------------------------- bodies

  datatype PersonalInfoBody = PersonalInfoBody(
    fullName: Option<string>, professionalTitle: Option<string>, email: Option<string>,
    phoneNumber: Option<string>, location: Option<string>, socialMediaUrls: Option<SocialUrls>)

  datatype SummaryBody = SummaryBody(summary: Option<string>)

  datatype WorkExperienceBody = WorkExperienceBody(
    title: Option<string>, name: Option<string>, url: Option<string>, location: Option<string>,
    startDate: Option<Timestamp>, endDate: Option<Timestamp>, isCurrent: Option<bool>,
    description: Option<string>)

  datatype ProjectBody = ProjectBody(
    title: Option<string>, url: Option<string>, startDate: Option<Timestamp>,
    endDate: Option<Timestamp>, description: Option<string>)

  datatype SkillBody = SkillBody(name: Option<string>, level: Option<real>)

  datatype EducationBody = EducationBody(
    degree: Option<string>, name: Option<string>, url: Option<string>,
    startDate: Option<Timestamp>, endDate: Option<Timestamp>, location: Option<string>,
    description: Option<string>)

  datatype CertificationBody = CertificationBody(
    name: Option<string>, url: Option<string>, description: Option<string>)

  /** The body of a request to one of the six collection routes. */
  datatype Body =
    | SummaryB(summary: SummaryBody)
    | WorkExperienceB(work: WorkExperienceBody)
    | ProjectB(project: ProjectBody)
    | SkillB(skill: SkillBody)
    | EducationB(education: EducationBody)
    | CertificationB(certification: CertificationBody)

  function KindOf(b: Body): (k: Kind)
    ensures k != PersonalInfo
  {
    match b
    case SummaryB(_) => Summary
    case WorkExperienceB(_) => WorkExperience
    case ProjectB(_) => Project
    case SkillB(_) => Skill
    case EducationB(_) => Education
    case CertificationB(_) => Certification
  }

  // ---------------------------------------------------------------- field rules

  /** `Joi.string().min(lo).max(hi)`. */
  predicate LengthIn(s: string, lo: nat, hi: nat)
  {
    lo <= |s| <= hi
  }

  predicate OptionalText(o: Option<string>, lo: nat, hi: nat)
  {
    o.None? || LengthIn(o.value, lo, hi)
  }

  /** `Joi.string().uri().optional()`. */
  predicate OptionalUri(o: Option<string>, lib: Lib)
  {
    o.None? || (o.value != "" && lib.isUri(o.value))
  }

  /** `Joi.string().email()`, when present. */
  predicate EmailText(s: string, lib: Lib)
  {
    s != "" && lib.isEmail(s)
  }

  /** `Joi.date().max('now')`. */
  predicate NotFuture(t: Timestamp, now: Timestamp)
  {
    t <= now
  }

  /** `Joi.date().min(Joi.ref('start_date')).max('now')`, when present: the reference
      must resolve to a date, and the end lies between it and `now`, both inclusive. */
  predicate EndDateOk(end: Option<Timestamp>, start: Option<Timestamp>, now: Timestamp)
  {
    end.None? || (start.Some? && start.value <= end.value <= now)
  }

  predicate StartDateOk(start: Option<Timestamp>, now: Timestamp)
  {
    start.None? || NotFuture(start.value, now)
  }

  /** The phone regex `^[\+]?[1-9][\d]{0,15}$`, read as: an optional `+`, then a digit
      1-9, then zero to fifteen digits. */
  predicate PhoneDigits(d: string)
  {
    1 <= |d| <= 16 && '1' <= d[0] <= '9' && forall i :: 1 <= i < |d| ==> IsDigit(d[i])
  }

  predicate IsPhone(s: string)
  {
    PhoneDigits(s) || (|s| > 0 && s[0] == '+' && PhoneDigits(s[1..]))
  }

  /** `Joi.number().integer()`. */
  predicate IsInteger(x: real)
  {
    x.Floor as real == x
  }

  /** The largest integer Joi accepts without the `unsafe` flag (2^53 - 1). */
  const MAX_SAFE_INTEGER: int := 9007199254740991

  /** `Joi.number().integer().positive()`. */
  predicate IsId(x: real)
  {
    IsInteger(x) && 1 <= x.Floor <= MAX_SAFE_INTEGER
  }

  predicate AllIds(xs: seq<real>)
  {
    forall i :: 0 <= i < |xs| ==> IsId(xs[i])
  }

  function ToIds(xs: seq<real>): (r: seq<int>)
    ensures |r| == |xs| && forall i :: 0 <= i < |xs| ==> r[i] == xs[i].Floor
  {
    if xs == [] then [] else [xs[0].Floor] + ToIds(xs[1..])
  }

  /** Skill `level`: optional; when present an integer in 1..5. */
  predicate LevelOk(level: Option<real>)
  {
    level.None? || (IsInteger(level.value) && 1.0 <= level.value <= 5.0)
  }

  /** The work-experience object rule: a current job has no end date and a job that is
      not current (`is_current` defaults to false) has one. */
  predicate CurrentRule(isCurrent: Option<bool>, end: Option<Timestamp>)
  {
    var current := isCurrent.Some? && isCurrent.value;
    !(current && end.Some?) && !(!current && end.None?)
  }

  function TextOrNull(o: Option<string>): (v: Value)
    ensures o.None? <==> v == Null
  {
    if o.Some? then Text(o.value) else Null
  }

  function DateOrNull(o: Option<Timestamp>): (v: Value)
    ensures o.None? <==> v == Null
  {
    if o.Some? then Date(o.value) else Null
  }

  function LevelValue(level: Option<real>): Value
  {
    if level.Some? then Int(level.value.Floor) else Null
  }

  function SomeText(o: Option<string>): (v: Option<Value>)
    ensures v.None? <==> o.None?
  {
    if o.Some? then Some(Text(o.value)) else None
  }

  function SomeDate(o: Option<Timestamp>): (v: Option<Value>)
    ensures v.None? <==> o.None?
  {
    if o.Some? then Some(Date(o.value)) else None
  }

  /** The stored value of an optional key: NULL when it is undefined. */
  function OrNull(o: Option<Value>): (v: Value)
    ensures o.Some? ==> v == o.value
  {
    if o.Some? then o.value else Null
  }

  function TextField(key: string, o: Option<string>): Field
  {
    Field(key, SomeText(o))
  }

  function DateField(key: string, o: Option<Timestamp>): Field
  {
    Field(key, SomeDate(o))
  }

  const NO_LINKS := SocialUrls(None, None, None, None, None)

  /** The keys of each schema, in the order the schema declares them; each is also the
      name of the column it is stored in. */
  function SchemaKeys(k: Kind): seq<string>
  {
    match k
    case PersonalInfo =>
      ["full_name", "professional_title", "email", "phone_number", "location", "social_media_urls"]
    case Summary => ["summary"]
    case WorkExperience =>
      ["title", "name", "url", "location", "start_date", "end_date", "is_current", "description"]
    case Project => ["title", "url", "start_date", "end_date", "description"]
    case Skill => ["name", "level"]
    case Education => ["degree", "name", "url", "start_date", "end_date", "location", "description"]
    case Certification => ["name", "url", "description"]
  }

  /** What the validated personal-information body holds under `key`: the body's own
      value, or `{}` for an absent `social_media_urls`; `None` for an undefined key. */
  function GivenInfo(b: PersonalInfoBody, key: string): Option<Value>
  {
    if key == "full_name" then SomeText(b.fullName)
    else if key == "professional_title" then SomeText(b.professionalTitle)
    else if key == "email" then SomeText(b.email)
    else if key == "phone_number" then SomeText(b.phoneNumber)
    else if key == "location" then SomeText(b.location)
    else if key == "social_media_urls" then
      Some(Links(if b.socialMediaUrls.Some? then b.socialMediaUrls.value else NO_LINKS))
    else None
  }

  /** What the validated collection body holds under `key`: the body's own value, or
      `false` for an absent `is_current`; `None` for an undefined key. */
  function Given(b: Body, key: string): (v: Option<Value>)
    ensures v.Some? ==> v.value != Null
  {
    match b
    case SummaryB(s) => if key == "summary" then SomeText(s.summary) else None
    case WorkExperienceB(w) =>
      if key == "title" then SomeText(w.title)
      else if key == "name" then SomeText(w.name)
      else if key == "url" then SomeText(w.url)
      else if key == "location" then SomeText(w.location)
      else if key == "start_date" then SomeDate(w.startDate)
      else if key == "end_date" then SomeDate(w.endDate)
      else if key == "is_current" then
        if w.isCurrent.Some? then Some(Flag(w.isCurrent.value)) else Some(Flag(false))
      else if key == "description" then SomeText(w.description)
      else None
    case ProjectB(p) =>
      if key == "title" then SomeText(p.title)
      else if key == "url" then SomeText(p.url)
      else if key == "start_date" then SomeDate(p.startDate)
      else if key == "end_date" then SomeDate(p.endDate)
      else if key == "description" then SomeText(p.description)
      else None
    case SkillB(s) =>
      if key == "name" then SomeText(s.name)
      else if key == "level" && s.level.Some? then Some(Int(s.level.value.Floor))
      else None
    case EducationB(e) =>
      if key == "degree" then SomeText(e.degree)
      else if key == "name" then SomeText(e.name)
      else if key == "url" then SomeText(e.url)
      else if key == "start_date" then SomeDate(e.startDate)
      else if key == "end_date" then SomeDate(e.endDate)
      else if key == "location" then SomeText(e.location)
      else if key == "description" then SomeText(e.description)
      else None
    case CertificationB(c) =>
      if key == "name" then SomeText(c.name)
      else if key == "url" then SomeText(c.url)
      else if key == "description" then SomeText(c.description)
      else None
  }

  predicate UrlsOk(u: SocialUrls, lib: Lib)
  {
    OptionalUri(u.linkedin, lib) && OptionalUri(u.github, lib) && OptionalUri(u.portfolio, lib)
    && OptionalUri(u.leetcode, lib) && OptionalUri(u.hackerrank, lib)
  }

  // ---------------------------------------------------------------- personal information

  predicate PersonalInfoFieldsOk(b: PersonalInfoBody, lib: Lib)
  {
    && OptionalText(b.fullName, 2, 255)
    && OptionalText(b.professionalTitle, 2, 255)
    && (b.email.None? || EmailText(b.email.value, lib))
    && (b.phoneNumber.None? || IsPhone(b.phoneNumber.value))
    && OptionalText(b.location, 2, 255)
    && (b.socialMediaUrls.None? || UrlsOk(b.socialMediaUrls.value, lib))
  }

  /** `personalInformationSchema`: the five text keys are required; `social_media_urls`
      defaults to `{}`. */
  function ValidatePersonalInfo(b: PersonalInfoBody, lib: Lib): (r: Option<Columns>)
    ensures r.Some? <==>
      && b.fullName.Some? && b.professionalTitle.Some? && b.email.Some?
      && b.phoneNumber.Some? && b.location.Some? && PersonalInfoFieldsOk(b, lib)
    ensures r.Some? ==>
      && r.value.Keys == {"full_name", "professional_title", "email", "phone_number", "location", "social_media_urls"}
      && r.value["phone_number"].Text? && IsPhone(r.value["phone_number"].s)
      && r.value["email"].Text? && EmailText(r.value["email"].s, lib)
      && r.value["full_name"].Text? && LengthIn(r.value["full_name"].s, 2, 255)
      && r.value["social_media_urls"] == Links(if b.socialMediaUrls.Some? then b.socialMediaUrls.value else NO_LINKS)
    ensures r.Some? ==> forall key :: key in r.value ==> Some(r.value[key]) == GivenInfo(b, key)
  {
    if b.fullName.Some? && b.professionalTitle.Some? && b.email.Some?
       && b.phoneNumber.Some? && b.location.Some? && PersonalInfoFieldsOk(b, lib)
    then
      Some(map[
        "full_name" := Text(b.fullName.value),
        "professional_title" := Text(b.professionalTitle.value),
        "email" := Text(b.email.value),
        "phone_number" := Text(b.phoneNumber.value),
        "location" := Text(b.location.value),
        "social_media_urls" := Links(if b.socialMediaUrls.Some? then b.socialMediaUrls.value else NO_LINKS)])
    else None
  }

  /** The update schema: every key optional, and the `{}` default of
      `social_media_urls` still applied. */
  function ValidatePersonalInfoUpdate(b: PersonalInfoBody, lib: Lib): (r: Option<seq<Field>>)
    ensures r.Some? <==> PersonalInfoFieldsOk(b, lib)
    ensures r.Some? ==> exists i :: 0 <= i < |r.value| && r.value[i].key == "social_media_urls" && r.value[i].val.Some?
    ensures r.Some? ==> |r.value| == |SchemaKeys(PersonalInfo)|
    ensures r.Some? ==> forall i :: 0 <= i < |r.value| ==>
      r.value[i].key == SchemaKeys(PersonalInfo)[i] && r.value[i].val == GivenInfo(b, r.value[i].key)
  {
    if PersonalInfoFieldsOk(b, lib) then
      var fields := [
        TextField("full_name", b.fullName),
        TextField("professional_title", b.professionalTitle),
        TextField("email", b.email),
        TextField("phone_number", b.phoneNumber),
        TextField("location", b.location),
        Field("social_media_urls", Some(Links(if b.socialMediaUrls.Some? then b.socialMediaUrls.value else NO_LINKS)))];
      assert fields[5].key == "social_media_urls";
      Some(fields)
    else None
  }

  // ---------------------------------------------------------------- the six collections

  predicate SummaryFieldsOk(b: SummaryBody)
  {
    OptionalText(b.summary, 50, 1000)
  }

  predicate WorkExperienceFieldsOk(b: WorkExperienceBody, now: Timestamp, lib: Lib)
  {
    && OptionalText(b.title, 2, 255)
    && OptionalText(b.name, 2, 255)
    && OptionalUri(b.url, lib)
    && OptionalText(b.location, 2, 255)
    && StartDateOk(b.startDate, now)
    && EndDateOk(b.endDate, b.startDate, now)
    && OptionalText(b.description, 20, 2000)
  }

  predicate ProjectFieldsOk(b: ProjectBody, now: Timestamp, lib: Lib)
  {
    && OptionalText(b.title, 2, 255)
    && OptionalUri(b.url, lib)
    && StartDateOk(b.startDate, now)
    && EndDateOk(b.endDate, b.startDate, now)
    && OptionalText(b.description, 20, 2000)
  }

  predicate SkillFieldsOk(b: SkillBody)
  {
    OptionalText(b.name, 2, 255) && LevelOk(b.level)
  }

  predicate EducationFieldsOk(b: EducationBody, now: Timestamp, lib: Lib)
  {
    && OptionalText(b.degree, 2, 255)
    && OptionalText(b.name, 2, 255)
    && OptionalUri(b.url, lib)
    && StartDateOk(b.startDate, now)
    && EndDateOk(b.endDate, b.startDate, now)
    && OptionalText(b.location, 2, 255)
    && OptionalText(b.description, 20, 1000)
  }

  predicate CertificationFieldsOk(b: CertificationBody, lib: Lib)
  {
    OptionalText(b.name, 2, 255) && OptionalUri(b.url, lib) && OptionalText(b.description, 20, 1000)
  }

  /** Every key constraint of the create schema holds and every required key is present. */
  predicate CreateOk(b: Body, now: Timestamp, lib: Lib)
  {
    match b
    case SummaryB(s) => s.summary.Some? && SummaryFieldsOk(s)
    case WorkExperienceB(w) =>
      w.title.Some? && w.name.Some? && w.startDate.Some? && WorkExperienceFieldsOk(w, now, lib)
      && CurrentRule(w.isCurrent, w.endDate)
    case ProjectB(p) =>
      p.title.Some? && p.startDate.Some? && p.description.Some? && ProjectFieldsOk(p, now, lib)
    case SkillB(s) => s.name.Some? && SkillFieldsOk(s)
    case EducationB(e) =>
      e.degree.Some? && e.name.Some? && e.startDate.Some? && e.location.Some? && EducationFieldsOk(e, now, lib)
    case CertificationB(c) => c.name.Some? && CertificationFieldsOk(c, lib)
  }

  /** The columns the INSERT of each create handler writes; undefined keys become NULL. */
  function InsertColumns(b: Body): Columns
  {
    match b
    case SummaryB(s) => map["summary" := TextOrNull(s.summary)]
    case WorkExperienceB(w) => map[
      "title" := TextOrNull(w.title), "name" := TextOrNull(w.name), "url" := TextOrNull(w.url),
      "location" := TextOrNull(w.location), "start_date" := DateOrNull(w.startDate),
      "end_date" := DateOrNull(w.endDate),
      "is_current" := Flag(w.isCurrent.Some? && w.isCurrent.value),
      "description" := TextOrNull(w.description)]
    case ProjectB(p) => map[
      "title" := TextOrNull(p.title), "url" := TextOrNull(p.url),
      "start_date" := DateOrNull(p.startDate), "end_date" := DateOrNull(p.endDate),
      "description" := TextOrNull(p.description)]
    case SkillB(s) => map["name" := TextOrNull(s.name), "level" := LevelValue(s.level)]
    case EducationB(e) => map[
      "degree" := TextOrNull(e.degree), "name" := TextOrNull(e.name), "url" := TextOrNull(e.url),
      "start_date" := DateOrNull(e.startDate), "end_date" := DateOrNull(e.endDate),
      "location" := TextOrNull(e.location), "description" := TextOrNull(e.description)]
    case CertificationB(c) => map[
      "name" := TextOrNull(c.name), "url" := TextOrNull(c.url), "description" := TextOrNull(c.description)]
  }

  /** The dated kinds keep start and end dates consistent with `now`. */
  predicate DatesOk(cols: Columns, now: Timestamp)
  {
    && "start_date" in cols && cols["start_date"].Date? && cols["start_date"].t <= now
    && "end_date" in cols
    && (cols["end_date"] == Null
        || (cols["end_date"].Date? && cols["start_date"].t <= cols["end_date"].t <= now))
  }

  /** What an accepted create body guarantees about the row it becomes. */
  predicate CreatedShape(k: Kind, cols: Columns, now: Timestamp)
  {
    match k
    case PersonalInfo => true
    case Summary =>
      "summary" in cols && cols["summary"].Text? && LengthIn(cols["summary"].s, 50, 1000)
    case WorkExperience =>
      && DatesOk(cols, now)
      && "is_current" in cols && cols["is_current"].Flag?
      && (cols["is_current"].b <==> cols["end_date"] == Null)
      && "title" in cols && cols["title"].Text? && LengthIn(cols["title"].s, 2, 255)
    case Project =>
      DatesOk(cols, now) && "description" in cols && cols["description"].Text?
    case Skill =>
      && "name" in cols && cols["name"].Text? && LengthIn(cols["name"].s, 2, 255)
      && "level" in cols && (cols["level"] == Null || (cols["level"].Int? && 1 <= cols["level"].i <= 5))
    case Education =>
      DatesOk(cols, now) && "location" in cols && cols["location"].Text?
    case Certification =>
      "name" in cols && cols["name"].Text? && LengthIn(cols["name"].s, 2, 255)
  }

  /** The create schema of each collection route. */
  function ValidateCreate(b: Body, now: Timestamp, lib: Lib): (r: Option<Columns>)
    ensures r.Some? <==> CreateOk(b, now, lib)
    ensures r.Some? ==> CreatedShape(KindOf(b), r.value, now)
    ensures r.Some? ==> forall key :: key in r.value <==> key in SchemaKeys(KindOf(b))
    ensures r.Some? ==> forall key :: key in r.value ==> r.value[key] == OrNull(Given(b, key))
  {
    if CreateOk(b, now, lib) then
      InsertShape(b, now, lib);
      InsertGiven(b);
      Some(InsertColumns(b))
    else None
  }

  lemma InsertShape(b: Body, now: Timestamp, lib: Lib)
    requires CreateOk(b, now, lib)
    ensures CreatedShape(KindOf(b), InsertColumns(b), now)
  {
    match b
    case SummaryB(_) =>
    case WorkExperienceB(w) => WorkExperienceShape(w, now, lib);
    case ProjectB(p) => ProjectShape(p, now, lib);
    case SkillB(s) => assert LevelOk(s.level);
    case EducationB(e) => EducationShape(e, now, lib);
    case CertificationB(_) =>
  }

  /** The INSERT writes exactly the schema's columns, each with what the body holds. */
  lemma InsertGiven(b: Body)
    ensures forall key :: key in InsertColumns(b) <==> key in SchemaKeys(KindOf(b))
    ensures forall key :: key in InsertColumns(b) ==> InsertColumns(b)[key] == OrNull(Given(b, key))
  {
    match b
    case SummaryB(s) => InsertSummaryGiven(s);
    case WorkExperienceB(w) => InsertWorkExperienceGiven(w);
    case ProjectB(p) => InsertProjectGiven(p);
    case SkillB(s) => InsertSkillGiven(s);
    case EducationB(e) => InsertEducationGiven(e);
    case CertificationB(c) => InsertCertificationGiven(c);
  }

  lemma InsertSummaryGiven(s: SummaryBody)
    ensures forall key :: key in InsertColumns(SummaryB(s)) <==> key in SchemaKeys(Summary)
    ensures forall key :: key in InsertColumns(SummaryB(s)) ==> InsertColumns(SummaryB(s))[key] == OrNull(Given(SummaryB(s), key))
  {
  }

  lemma InsertWorkExperienceGiven(w: WorkExperienceBody)
    ensures forall key :: key in InsertColumns(WorkExperienceB(w)) <==> key in SchemaKeys(WorkExperience)
    ensures forall key :: key in InsertColumns(WorkExperienceB(w)) ==> InsertColumns(WorkExperienceB(w))[key] == OrNull(Given(WorkExperienceB(w), key))
  {
    var b := WorkExperienceB(w);
    forall key | key in InsertColumns(b) ensures InsertColumns(b)[key] == OrNull(Given(b, key)) {
      if key == "title" {
      } else if key == "name" {
      } else if key == "url" {
      } else if key == "location" {
      } else if key == "start_date" {
      } else if key == "end_date" {
      } else if key == "is_current" {
      } else {
        assert key == "description";
      }
    }
  }

  lemma InsertProjectGiven(p: ProjectBody)
    ensures forall key :: key in InsertColumns(ProjectB(p)) <==> key in SchemaKeys(Project)
    ensures forall key :: key in InsertColumns(ProjectB(p)) ==> InsertColumns(ProjectB(p))[key] == OrNull(Given(ProjectB(p), key))
  {
    var b := ProjectB(p);
    forall key | key in InsertColumns(b) ensures InsertColumns(b)[key] == OrNull(Given(b, key)) {
      if key == "title" {
      } else if key == "url" {
      } else if key == "start_date" {
      } else if key == "end_date" {
      } else {
        assert key == "description";
      }
    }
  }

  lemma InsertSkillGiven(s: SkillBody)
    ensures forall key :: key in InsertColumns(SkillB(s)) <==> key in SchemaKeys(Skill)
    ensures forall key :: key in InsertColumns(SkillB(s)) ==> InsertColumns(SkillB(s))[key] == OrNull(Given(SkillB(s), key))
  {
  }

  lemma InsertEducationGiven(e: EducationBody)
    ensures forall key :: key in InsertColumns(EducationB(e)) <==> key in SchemaKeys(Education)
    ensures forall key :: key in InsertColumns(EducationB(e)) ==> InsertColumns(EducationB(e))[key] == OrNull(Given(EducationB(e), key))
  {
    var b := EducationB(e);
    forall key | key in InsertColumns(b) ensures InsertColumns(b)[key] == OrNull(Given(b, key)) {
      if key == "degree" {
      } else if key == "name" {
      } else if key == "url" {
      } else if key == "start_date" {
      } else if key == "end_date" {
      } else if key == "location" {
      } else {
        assert key == "description";
      }
    }
  }

  lemma InsertCertificationGiven(c: CertificationBody)
    ensures forall key :: key in InsertColumns(CertificationB(c)) <==> key in SchemaKeys(Certification)
    ensures forall key :: key in InsertColumns(CertificationB(c)) ==> InsertColumns(CertificationB(c))[key] == OrNull(Given(CertificationB(c), key))
  {
  }

  lemma WorkExperienceShape(w: WorkExperienceBody, now: Timestamp, lib: Lib)
    requires CreateOk(WorkExperienceB(w), now, lib)
    ensures CreatedShape(WorkExperience, InsertColumns(WorkExperienceB(w)), now)
  {
  }

  lemma ProjectShape(p: ProjectBody, now: Timestamp, lib: Lib)
    requires CreateOk(ProjectB(p), now, lib)
    ensures CreatedShape(Project, InsertColumns(ProjectB(p)), now)
  {
  }

  lemma EducationShape(e: EducationBody, now: Timestamp, lib: Lib)
    requires CreateOk(EducationB(e), now, lib)
    ensures CreatedShape(Education, InsertColumns(EducationB(e)), now)
  {
  }

  /** The fields of the update value in schema key order (Joi defaults included). */
  function UpdateFields(b: Body): seq<Field>
  {
    match b
    case SummaryB(s) => [TextField("summary", s.summary)]
    case WorkExperienceB(w) => [
      TextField("title", w.title), TextField("name", w.name), TextField("url", w.url),
      TextField("location", w.location), DateField("start_date", w.startDate),
      DateField("end_date", w.endDate),
      Field("is_current", Some(Flag(w.isCurrent.Some? && w.isCurrent.value))),
      TextField("description", w.description)]
    case ProjectB(p) => [
      TextField("title", p.title), TextField("url", p.url), DateField("start_date", p.startDate),
      DateField("end_date", p.endDate), TextField("description", p.description)]
    case SkillB(s) => [TextField("name", s.name), Field("level", if s.level.Some? then Some(LevelValue(s.level)) else None)]
    case EducationB(e) => [
      TextField("degree", e.degree), TextField("name", e.name), TextField("url", e.url),
      DateField("start_date", e.startDate), DateField("end_date", e.endDate),
      TextField("location", e.location), TextField("description", e.description)]
    case CertificationB(c) => [
      TextField("name", c.name), TextField("url", c.url), TextField("description", c.description)]
  }

  /** Every key constraint of the create schema, with every key optional. Whether the
      work-experience object rule still runs on the forked schema is `objectRule`. */
  predicate UpdateOk(b: Body, now: Timestamp, lib: Lib, objectRule: bool)
  {
    match b
    case SummaryB(s) => SummaryFieldsOk(s)
    case WorkExperienceB(w) =>
      WorkExperienceFieldsOk(w, now, lib) && (objectRule ==> CurrentRule(w.isCurrent, w.endDate))
    case ProjectB(p) => ProjectFieldsOk(p, now, lib)
    case SkillB(s) => SkillFieldsOk(s)
    case EducationB(e) => EducationFieldsOk(e, now, lib)
    case CertificationB(c) => CertificationFieldsOk(c, lib)
  }

  /** The update schema of each collection route. */
  function ValidateUpdate(b: Body, now: Timestamp, lib: Lib, objectRule: bool): (r: Option<seq<Field>>)
    ensures r.Some? <==> UpdateOk(b, now, lib, objectRule)
    ensures r.Some? ==> forall i :: 0 <= i < |r.value| && r.value[i].val.Some? ==>
      r.value[i].val.value != Null
    ensures r.Some? ==> |r.value| == |SchemaKeys(KindOf(b))|
    ensures r.Some? ==> forall i :: 0 <= i < |r.value| ==>
      r.value[i].key == SchemaKeys(KindOf(b))[i] && r.value[i].val == Given(b, r.value[i].key)
  {
    if UpdateOk(b, now, lib, objectRule) then
      UpdateGiven(b);
      Some(UpdateFields(b))
    else None
  }

  /** The update value lists the schema's keys in order, each with what the body holds. */
  lemma UpdateGiven(b: Body)
    ensures |UpdateFields(b)| == |SchemaKeys(KindOf(b))|
    ensures forall i :: 0 <= i < |UpdateFields(b)| ==>
      UpdateFields(b)[i].key == SchemaKeys(KindOf(b))[i] && UpdateFields(b)[i].val == Given(b, UpdateFields(b)[i].key)
    ensures forall i :: 0 <= i < |UpdateFields(b)| && UpdateFields(b)[i].val.Some? ==>
      UpdateFields(b)[i].val.value != Null
  {
    match b
    case SummaryB(s) => UpdateSummaryGiven(s);
    case WorkExperienceB(w) => UpdateWorkExperienceGiven(w);
    case ProjectB(p) => UpdateProjectGiven(p);
    case SkillB(s) => UpdateSkillGiven(s);
    case EducationB(e) => UpdateEducationGiven(e);
    case CertificationB(c) => UpdateCertificationGiven(c);
  }

  lemma UpdateSummaryGiven(s: SummaryBody)
    ensures |UpdateFields(SummaryB(s))| == |SchemaKeys(Summary)|
    ensures forall i :: 0 <= i < |UpdateFields(SummaryB(s))| ==>
      UpdateFields(SummaryB(s))[i].key == SchemaKeys(Summary)[i]
      && UpdateFields(SummaryB(s))[i].val == Given(SummaryB(s), UpdateFields(SummaryB(s))[i].key)
  {
  }

  lemma UpdateWorkExperienceGiven(w: WorkExperienceBody)
    ensures |UpdateFields(WorkExperienceB(w))| == |SchemaKeys(WorkExperience)|
    ensures forall i :: 0 <= i < |UpdateFields(WorkExperienceB(w))| ==>
      UpdateFields(WorkExperienceB(w))[i].key == SchemaKeys(WorkExperience)[i]
      && UpdateFields(WorkExperienceB(w))[i].val == Given(WorkExperienceB(w), UpdateFields(WorkExperienceB(w))[i].key)
  {
  }

  lemma UpdateProjectGiven(p: ProjectBody)
    ensures |UpdateFields(ProjectB(p))| == |SchemaKeys(Project)|
    ensures forall i :: 0 <= i < |UpdateFields(ProjectB(p))| ==>
      UpdateFields(ProjectB(p))[i].key == SchemaKeys(Project)[i]
      && UpdateFields(ProjectB(p))[i].val == Given(ProjectB(p), UpdateFields(ProjectB(p))[i].key)
  {
  }

  lemma UpdateSkillGiven(s: SkillBody)
    ensures |UpdateFields(SkillB(s))| == |SchemaKeys(Skill)|
    ensures forall i :: 0 <= i < |UpdateFields(SkillB(s))| ==>
      UpdateFields(SkillB(s))[i].key == SchemaKeys(Skill)[i]
      && UpdateFields(SkillB(s))[i].val == Given(SkillB(s), UpdateFields(SkillB(s))[i].key)
  {
  }

  lemma UpdateEducationGiven(e: EducationBody)
    ensures |UpdateFields(EducationB(e))| == |SchemaKeys(Education)|
    ensures forall i :: 0 <= i < |UpdateFields(EducationB(e))| ==>
      UpdateFields(EducationB(e))[i].key == SchemaKeys(Education)[i]
      && UpdateFields(EducationB(e))[i].val == Given(EducationB(e), UpdateFields(EducationB(e))[i].key)
  {
  }

  lemma UpdateCertificationGiven(c: CertificationBody)
    ensures |UpdateFields(CertificationB(c))| == |SchemaKeys(Certification)|
    ensures forall i :: 0 <= i < |UpdateFields(CertificationB(c))| ==>
      UpdateFields(CertificationB(c))[i].key == SchemaKeys(Certification)[i]
      && UpdateFields(CertificationB(c))[i].val == Given(CertificationB(c), UpdateFields(CertificationB(c))[i].key)
  {
  }

  /** The update schemas accept everything the create schemas accept: each update
      schema only drops the `required` flags. */
  lemma CreateImpliesUpdate(b: Body, now: Timestamp, lib: Lib, objectRule: bool)
    requires CreateOk(b, now, lib)
    ensures UpdateOk(b, now, lib, objectRule)
  {
  }

  /** The empty body passes every update schema except where a default field fails. */
  lemma EmptyUpdateAccepted(now: Timestamp, lib: Lib)
    ensures UpdateOk(SummaryB(SummaryBody(None)), now, lib, true)
    ensures UpdateOk(ProjectB(ProjectBody(None, None, None, None, None)), now, lib, true)
    ensures !UpdateOk(WorkExperienceB(WorkExperienceBody(None, None, None, None, None, None, None, None)), now, lib, true)
    ensures UpdateOk(WorkExperienceB(WorkExperienceBody(None, None, None, None, None, None, None, None)), now, lib, false)
  {
  }

  // ---------------------------------------------------------------- resumes

  /** The six reference lists of a resume, one per collection kind. */
  datatype RefLists = RefLists(
    summaries: seq<int>, workExperiences: seq<int>, projects: seq<int>,
    skills: seq<int>, education: seq<int>, certifications: seq<int>)
  {
    function Of(k: Kind): seq<int>
    {
      match k
      case PersonalInfo => []
      case Summary => summaries
      case WorkExperience => workExperiences
      case Project => projects
      case Skill => skills
      case Education => education
      case Certification => certifications
    }
  }

  const NO_REFS := RefLists([], [], [], [], [], [])

  datatype ResumeBody = ResumeBody(
    title: Option<string>, personalInformationId: Option<real>,
    summaryIds: Option<seq<real>>, workExperienceIds: Option<seq<real>>, projectIds: Option<seq<real>>,
    skillIds: Option<seq<real>>, educationIds: Option<seq<real>>, certificationIds: Option<seq<real>>)
  {
    /** The id array the body gives for kind `k`, if any. */
    function IdsOf(k: Kind): Option<seq<real>>
    {
      match k
      case PersonalInfo => None
      case Summary => summaryIds
      case WorkExperience => workExperienceIds
      case Project => projectIds
      case Skill => skillIds
      case Education => educationIds
      case Certification => certificationIds
    }
  }

  datatype ResumeValue = ResumeValue(title: string, personalInformationId: int, refs: RefLists)

  /** The update value: `None` for an undefined key. */
  datatype ResumeUpdateValue = ResumeUpdateValue(
    title: Option<string>, personalInformationId: Option<int>,
    summaryIds: Option<seq<int>>, workExperienceIds: Option<seq<int>>, projectIds: Option<seq<int>>,
    skillIds: Option<seq<int>>, educationIds: Option<seq<int>>, certificationIds: Option<seq<int>>)
  {
    function IdsOf(k: Kind): Option<seq<int>>
    {
      match k
      case PersonalInfo => None
      case Summary => summaryIds
      case WorkExperience => workExperienceIds
      case Project => projectIds
      case Skill => skillIds
      case Education => educationIds
      case Certification => certificationIds
    }
  }

  const DEFAULT_TITLE := "Default Resume"

  predicate Positive(ids: seq<int>)
  {
    forall i :: 0 <= i < |ids| ==> ids[i] >= 1
  }

  predicate ListOk(o: Option<seq<real>>)
  {
    o.None? || AllIds(o.value)
  }

  function IdsOrEmpty(o: Option<seq<real>>): (r: seq<int>)
    ensures ListOk(o) ==> Positive(r)
    ensures o.None? ==> r == []
  {
    if o.Some? then ToIds(o.value) else []
  }

  predicate ResumeFieldsOk(b: ResumeBody)
  {
    && OptionalText(b.title, 2, 255)
    && (b.personalInformationId.None? || IsId(b.personalInformationId.value))
    && ListOk(b.summaryIds) && ListOk(b.workExperienceIds) && ListOk(b.projectIds)
    && ListOk(b.skillIds) && ListOk(b.educationIds) && ListOk(b.certificationIds)
  }

  /** `resumeSchema`: `personal_information_id` is a required positive integer, each id
      array holds positive integers and defaults to `[]`, the title defaults to
      'Default Resume'. */
  function ValidateResume(b: ResumeBody): (r: Option<ResumeValue>)
    ensures r.Some? <==> b.personalInformationId.Some? && ResumeFieldsOk(b)
    ensures r.Some? ==> r.value.personalInformationId >= 1 && LengthIn(r.value.title, 2, 255)
    ensures r.Some? ==> forall k :: Positive(r.value.refs.Of(k))
    ensures r.Some? && b.title.None? ==> r.value.title == DEFAULT_TITLE
    ensures r.Some? && b.title.Some? ==> r.value.title == b.title.value
    ensures r.Some? ==> r.value.personalInformationId as real == b.personalInformationId.value
    ensures r.Some? ==> forall k :: k != PersonalInfo && b.IdsOf(k).None? ==> r.value.refs.Of(k) == []
    ensures r.Some? ==> forall k :: k != PersonalInfo && b.IdsOf(k).Some? ==>
      r.value.refs.Of(k) == ToIds(b.IdsOf(k).value)
  {
    if b.personalInformationId.Some? && ResumeFieldsOk(b) then
      var refs := RefLists(
        IdsOrEmpty(b.summaryIds), IdsOrEmpty(b.workExperienceIds), IdsOrEmpty(b.projectIds),
        IdsOrEmpty(b.skillIds), IdsOrEmpty(b.educationIds), IdsOrEmpty(b.certificationIds));
      BodyRefs(b, refs);
      Some(ResumeValue(if b.title.Some? then b.title.value else DEFAULT_TITLE,
                       b.personalInformationId.value.Floor, refs))
    else None
  }

  /** The lists of a resume value are the body's, with `[]` for an absent one. */
  lemma BodyRefs(b: ResumeBody, refs: RefLists)
    requires refs == RefLists(
      IdsOrEmpty(b.summaryIds), IdsOrEmpty(b.workExperienceIds), IdsOrEmpty(b.projectIds),
      IdsOrEmpty(b.skillIds), IdsOrEmpty(b.educationIds), IdsOrEmpty(b.certificationIds))
    ensures ResumeFieldsOk(b) ==> forall k :: Positive(refs.Of(k))
    ensures forall k :: k != PersonalInfo && b.IdsOf(k).None? ==> refs.Of(k) == []
    ensures forall k :: k != PersonalInfo && b.IdsOf(k).Some? ==> refs.Of(k) == ToIds(b.IdsOf(k).value)
  {
    forall k ensures refs.Of(k) == if k == PersonalInfo then [] else IdsOrEmpty(b.IdsOf(k)) {
    }
  }

  function IdsOrDefault(o: Option<seq<real>>): Option<seq<int>>
  {
    Some(IdsOrEmpty(o))
  }

  /** `updateResumeSchema`: every key optional, but the title and list defaults are
      still applied, so the title and all six lists are always defined in the value. */
  function ValidateResumeUpdate(b: ResumeBody): (r: Option<ResumeUpdateValue>)
    ensures r.Some? <==> ResumeFieldsOk(b)
    ensures r.Some? ==> r.value.title.Some? && forall k :: k != PersonalInfo ==> r.value.IdsOf(k).Some?
    ensures r.Some? ==> (r.value.personalInformationId.Some? <==> b.personalInformationId.Some?)
    ensures r.Some? && b.title.None? ==> r.value.title == Some(DEFAULT_TITLE)
    ensures r.Some? && b.title.Some? ==> r.value.title == b.title
    ensures r.Some? && b.personalInformationId.Some? ==>
      r.value.personalInformationId.value as real == b.personalInformationId.value
    ensures r.Some? ==> forall k :: r.value.IdsOf(k).Some? ==> Positive(r.value.IdsOf(k).value)
    ensures r.Some? ==> forall k :: k != PersonalInfo && b.IdsOf(k).None? ==> r.value.IdsOf(k) == Some([])
    ensures r.Some? ==> forall k :: k != PersonalInfo && b.IdsOf(k).Some? ==>
      r.value.IdsOf(k) == Some(ToIds(b.IdsOf(k).value))
  {
    if ResumeFieldsOk(b) then
      Some(ResumeUpdateValue(
        Some(if b.title.Some? then b.title.value else DEFAULT_TITLE),
        if b.personalInformationId.Some? then Some(b.personalInformationId.value.Floor) else None,
        IdsOrDefault(b.summaryIds), IdsOrDefault(b.workExperienceIds), IdsOrDefault(b.projectIds),
        IdsOrDefault(b.skillIds), IdsOrDefault(b.educationIds), IdsOrDefault(b.certificationIds)))
    else None
  }

  // ---------------------------------------------------------------- properties

  /** A current job with an end date, and a job that is not current (by default or by
      choice) without one, are both refused at creation. */
  lemma WorkExperienceCurrentRule(w: WorkExperienceBody, now: Timestamp, lib: Lib)
    ensures (w.isCurrent == Some(true) && w.endDate.Some?) ==> ValidateCreate(WorkExperienceB(w), now, lib).None?
    ensures (w.isCurrent != Some(true) && w.endDate.None?) ==> ValidateCreate(WorkExperienceB(w), now, lib).None?
  {
  }

  /** Date bounds: a start date after `now`, an end date after `now`, or an end date
      before the start date is refused by all three dated schemas. */
  lemma DateBounds(start: Timestamp, end: Option<Timestamp>, now: Timestamp, lib: Lib,
                   w: WorkExperienceBody, p: ProjectBody, e: EducationBody)
    requires w.startDate == p.startDate == e.startDate == Some(start)
    requires w.endDate == p.endDate == e.endDate == end
    requires start > now || (end.Some? && (end.value > now || end.value < start))
    ensures ValidateCreate(WorkExperienceB(w), now, lib).None?
    ensures ValidateCreate(ProjectB(p), now, lib).None?
    ensures ValidateCreate(EducationB(e), now, lib).None?
  {
  }

  /** A skill level is accepted exactly when absent or an integer from 1 to 5. */
  lemma SkillLevel(name: string, level: Option<real>)
    requires LengthIn(name, 2, 255)
    ensures ValidateCreate(SkillB(SkillBody(Some(name), level)), 0, Lib(_ => true, _ => true)).Some?
      <==> level.None? || level.value in {1.0, 2.0, 3.0, 4.0, 5.0}
  {
    if level.Some? {
      var x := level.value;
      if IsInteger(x) && 1.0 <= x <= 5.0 {
        var n := x.Floor;
        assert n as real == x;
        assert 1 <= n <= 5;
        assert n == 1 || n == 2 || n == 3 || n == 4 || n == 5;
      }
    }
  }

  /** What the phone pattern admits: at most 17 characters, a `+` only in front, no
      leading zero, and digits otherwise; `+` alone and the empty string are refused. */
  lemma PhoneShape(s: string)
    requires IsPhone(s)
    ensures 1 <= |s| <= 17
    ensures forall i :: 0 < i < |s| ==> IsDigit(s[i])
    ensures s[0] == '+' || ('1' <= s[0] <= '9')
    ensures s[0] == '+' ==> '1' <= s[1] <= '9'
  {
    if !PhoneDigits(s) {
      assert s[0] == '+' && PhoneDigits(s[1..]);
      forall i | 1 < i < |s| ensures IsDigit(s[i]) {
        assert s[i] == s[1..][i - 1];
      }
      assert s[1] == s[1..][0];
    }
  }

  /** The converse: these strings are exactly what the pattern accepts. */
  lemma PhoneComplete(s: string)
    requires 1 <= |s| <= 17
    requires forall i :: 0 < i < |s| ==> IsDigit(s[i])
    requires ('1' <= s[0] <= '9' && |s| <= 16) || (s[0] == '+' && |s| >= 2 && '1' <= s[1] <= '9')
    ensures IsPhone(s)
  {
    if s[0] == '+' {
      var d := s[1..];
      forall i | 1 <= i < |d| ensures IsDigit(d[i]) {
        assert d[i] == s[i + 1];
      }
      assert PhoneDigits(d);
    }
  }

  lemma PhoneExamples()
    ensures IsPhone("+14155552671") && IsPhone("9876543210")
    ensures !IsPhone("") && !IsPhone("+") && !IsPhone("0123") && !IsPhone("12345678901234567")
  {
    assert "12345678901234567"[0] != '+';
    assert |"12345678901234567"| == 17;
  }

  /** A resume body without the optional keys takes the default title and empty lists. */
  lemma ResumeDefaults(pid: real)
    requires IsId(pid)
    ensures ValidateResume(ResumeBody(None, Some(pid), None, None, None, None, None, None))
      == Some(ResumeValue(DEFAULT_TITLE, pid.Floor, NO_REFS))
  {
  }

  /** Zero, negative and fractional ids are refused. */
  lemma ResumeIdsPositive(b: ResumeBody)
    requires b.personalInformationId.Some?
    requires b.personalInformationId.value <= 0.0 || !IsInteger(b.personalInformationId.value)
    ensures ValidateResume(b).None?
  {
  }
}
