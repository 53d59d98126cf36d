/** The resume controller: each signed-in user creates, lists, updates and soft-deletes
    their personal information, six kinds of resume sections and resumes that
    reference them. The tables live in a `ResumeStore` object; every handler is a method
    that returns the HTTP status it answers with and changes the tables as its SQL does.
    `now` is the database's `CURRENT_TIMESTAMP`; the caller is `user`, the id that the
    authentication middleware put on the request. */
module ResumeController {
  import opened Common
  import opened ResumeSchema
  import opened Rows
  import opened Sorting

  const OK := 200
  const CREATED := 201
  const BAD_REQUEST := 400
  const NOT_FOUND := 404
  const CONFLICT := 409

  // ---------------------------------------------------------------- the SET list of an UPDATE

  /** The fields of a validated value that are defined, in order: the ones the handlers
      turn into `key = $n`. */
  function Defined(fields: seq<Field>): (r: seq<Field>)
    ensures |r| <= |fields|
    ensures forall f :: f in r <==> f in fields && f.val.Some?
  {
    if fields == [] then []
    else
      var init := fields[..|fields| - 1];
      assert fields == init + [fields[|fields| - 1]];
      Defined(init) + (if fields[|fields| - 1].val.Some? then [fields[|fields| - 1]] else [])
  }

  /** The `Object.keys(value).forEach` loop of the update handlers: collects the defined
      fields and numbers the placeholders from `$1`; the next free number is the one
      the WHERE clause uses. */
  method CollectDefined(fields: seq<Field>) returns (sets: seq<Field>, paramCount: nat)
    ensures sets == Defined(fields)
    ensures paramCount == |sets| + 1
    ensures forall i :: 0 <= i < |sets| ==> sets[i].val.Some? && sets[i] in fields
  {
    sets := [];
    paramCount := 1;
    var i := 0;
    while i < |fields|
      invariant 0 <= i <= |fields|
      invariant sets == Defined(fields[..i])
      invariant paramCount == |sets| + 1
    {
      assert fields[..i + 1][..i] == fields[..i];
      if fields[i].val.Some? {
        sets := sets + [fields[i]];
        paramCount := paramCount + 1;
      }
      i := i + 1;
    }
    assert fields[..|fields|] == fields;
  }

  /** Some defined field of `fs` writes column `k`. */
  predicate Writes(fs: seq<Field>, k: string)
  {
    exists i :: 0 <= i < |fs| && fs[i].key == k && fs[i].val.Some?
  }

  lemma WritesInit(fs: seq<Field>, k: string)
    requires fs != []
    ensures Writes(fs, k) <==>
      Writes(fs[..|fs| - 1], k) || (fs[|fs| - 1].key == k && fs[|fs| - 1].val.Some?)
  {
    var init := fs[..|fs| - 1];
    if Writes(init, k) {
      var i :| 0 <= i < |init| && init[i].key == k && init[i].val.Some?;
      assert fs[i] == init[i];
    }
    if Writes(fs, k) {
      var i :| 0 <= i < |fs| && fs[i].key == k && fs[i].val.Some?;
      if i < |fs| - 1 {
        assert init[i] == fs[i];
      }
    }
  }

  /** `SET k1 = v1, k2 = v2, …` applied to one row's columns; undefined fields are skipped. */
  function Patch(cols: Columns, fs: seq<Field>): (r: Columns)
    ensures forall k :: k in r <==> k in cols || Writes(fs, k)
    ensures forall k :: k in cols && !Writes(fs, k) ==> r[k] == cols[k]
  {
    if fs == [] then cols
    else
      var last := fs[|fs| - 1];
      var p := Patch(cols, fs[..|fs| - 1]);
      assert forall k :: Writes(fs, k) <==> Writes(fs[..|fs| - 1], k) || (last.key == k && last.val.Some?) by {
        forall k ensures Writes(fs, k) <==> Writes(fs[..|fs| - 1], k) || (last.key == k && last.val.Some?) {
          WritesInit(fs, k);
        }
      }
      if last.val.Some? then p[last.key := last.val.value] else p
  }

  predicate DistinctKeys(fs: seq<Field>)
  {
    forall i, j :: 0 <= i < j < |fs| ==> fs[i].key != fs[j].key
  }

  /** With distinct keys, every defined field ends up in the row. */
  lemma {:induction false} PatchAt(cols: Columns, fs: seq<Field>, i: int)
    requires DistinctKeys(fs) && 0 <= i < |fs| && fs[i].val.Some?
    ensures fs[i].key in Patch(cols, fs) && Patch(cols, fs)[fs[i].key] == fs[i].val.value
    decreases |fs|
  {
    var init := fs[..|fs| - 1];
    if i < |fs| - 1 {
      assert DistinctKeys(init) by {
        forall a, b | 0 <= a < b < |init| ensures init[a].key != init[b].key {
          assert init[a] == fs[a] && init[b] == fs[b];
        }
      }
      assert init[i] == fs[i];
      PatchAt(cols, init, i);
    }
  }

  /** A field that is undefined, and whose key no other field has, leaves its column alone. */
  lemma UndefinedKeeps(cols: Columns, fs: seq<Field>, i: int)
    requires DistinctKeys(fs) && 0 <= i < |fs| && fs[i].val.None?
    ensures !Writes(fs, fs[i].key)
    ensures fs[i].key in Patch(cols, fs) <==> fs[i].key in cols
    ensures fs[i].key in cols ==> Patch(cols, fs)[fs[i].key] == cols[fs[i].key]
  {
  }

  /** Applying only the defined fields is applying them all. */
  lemma {:induction false} PatchDefined(cols: Columns, fs: seq<Field>)
    ensures Patch(cols, Defined(fs)) == Patch(cols, fs)
    decreases |fs|
  {
    if fs != [] {
      var init := fs[..|fs| - 1];
      var last := fs[|fs| - 1];
      PatchDefined(cols, init);
      var d := Defined(fs);
      if last.val.Some? {
        assert d == Defined(init) + [last];
        assert d[..|d| - 1] == Defined(init) && d[|d| - 1] == last;
        assert Patch(cols, d) == Patch(cols, Defined(init))[last.key := last.val.value];
      } else {
        assert d == Defined(init);
      }
    }
  }

  // ---------------------------------------------------------------- UPDATE … WHERE … AND is_active = true

  /** The WHERE clause of an UPDATE; each one also requires `is_active = true`. */
  datatype Where = WhereId(id: int) | WhereUser(user: int) | WhereIdAndUser(id: int, user: int)

  predicate Hits(w: Where, r: Row)
  {
    r.isActive &&
    match w
    case WhereId(id) => r.id == id
    case WhereUser(u) => r.userId == u
    case WhereIdAndUser(id, u) => r.id == id && r.userId == u
  }

  /** What an UPDATE does to a row it hits: new column values, or the soft delete;
      both stamp `updated_at`. */
  datatype Change = SetColumns(fields: seq<Field>) | Deactivate

  function Changed(c: Change, r: Row, now: Timestamp): (r2: Row)
    ensures r2.id == r.id && r2.userId == r.userId && r2.createdAt == r.createdAt && r2.updatedAt == now
    ensures c.SetColumns? ==> r2.isActive == r.isActive && r2.cols == Patch(r.cols, c.fields)
    ensures c.Deactivate? ==> !r2.isActive && r2.cols == r.cols
  {
    match c
    case SetColumns(fs) => r.(cols := Patch(r.cols, fs), updatedAt := now)
    case Deactivate => r.(isActive := false, updatedAt := now)
  }

  /** `UPDATE t SET … WHERE w`: the rows that are hit change, all others stay. */
  function UpdateWhere(t: seq<Row>, w: Where, c: Change, now: Timestamp): (r: seq<Row>)
    ensures |r| == |t|
    ensures forall i :: 0 <= i < |t| ==> r[i] == (if Hits(w, t[i]) then Changed(c, t[i], now) else t[i])
  {
    if t == [] then []
    else [if Hits(w, t[0]) then Changed(c, t[0], now) else t[0]] + UpdateWhere(t[1..], w, c, now)
  }

  /** The position of the first row an UPDATE hits, the one `RETURNING` reports first. */
  function FirstHit(t: seq<Row>, w: Where): (r: Option<nat>)
    ensures r.Some? ==> r.value < |t| && Hits(w, t[r.value]) && forall j :: 0 <= j < r.value ==> !Hits(w, t[j])
    ensures r.None? ==> forall j :: 0 <= j < |t| ==> !Hits(w, t[j])
  {
    if t == [] then None
    else if Hits(w, t[0]) then Some(0)
    else match FirstHit(t[1..], w)
      case Some(j) => Some(j + 1)
      case None => None
  }

  /** An UPDATE that hits nothing leaves the table as it was. */
  lemma NoHitNoChange(t: seq<Row>, w: Where, c: Change, now: Timestamp)
    requires FirstHit(t, w).None?
    ensures UpdateWhere(t, w, c, now) == t
  {
  }

  /** A soft delete leaves nothing for the same WHERE clause to hit: a second delete answers 404. */
  lemma DeleteTwice(t: seq<Row>, w: Where, now: Timestamp, user: int)
    ensures FirstHit(UpdateWhere(t, w, Deactivate, now), w).None?
    ensures w.WhereId? ==> !Owns(UpdateWhere(t, w, Deactivate, now), w.id, user)
  {
  }

  /** `INSERT … RETURNING *` of a new row: the next SERIAL id, active, both timestamps `now`. */
  function Inserted(t: seq<Row>, user: int, cols: Columns, now: Timestamp): (r: Row)
    ensures r.id == |t| + 1 && r.userId == user && r.isActive && r.cols == cols
    ensures r.createdAt == now && r.updatedAt == now
  {
    Row(|t| + 1, user, true, cols, now, now)
  }

  /** `t2` keeps every row of `t` in its place with its id and owner. */
  predicate Keeps(t: seq<Row>, t2: seq<Row>)
  {
    |t| <= |t2| && forall i :: 0 <= i < |t| ==> t2[i].id == t[i].id && t2[i].userId == t[i].userId
  }

  /** With SERIAL ids, an UPDATE by id changes at most the row at that position. */
  lemma UpdateById(t: seq<Row>, id: int, c: Change, now: Timestamp)
    requires IdsAreIndices(t) && 1 <= id <= |t|
    ensures var r := UpdateWhere(t, WhereId(id), c, now);
      && (forall j :: 0 <= j < |t| && j != id - 1 ==> r[j] == t[j])
      && r[id - 1] == if t[id - 1].isActive then Changed(c, t[id - 1], now) else t[id - 1]
  {
  }

  lemma UpdateKeeps(t: seq<Row>, w: Where, c: Change, now: Timestamp)
    requires IdsAreIndices(t)
    ensures var r := UpdateWhere(t, w, c, now); Keeps(t, r) && IdsAreIndices(r)
  {
  }

  /** At most one active row per user: the personal-information table. */
  predicate OnePerUser(t: seq<Row>)
  {
    forall i, j :: 0 <= i < j < |t| && t[i].isActive && t[j].isActive ==> t[i].userId != t[j].userId
  }

  /** So the personal-information lookups see at most one row. */
  lemma {:induction false} OnePerUserLookup(t: seq<Row>, user: int)
    requires OnePerUser(t)
    ensures |ActiveOf(t, user)| <= 1
    decreases |t|
  {
    if t != [] {
      var rest := t[1..];
      assert OnePerUser(rest) by {
        forall i, j | 0 <= i < j < |rest| && rest[i].isActive && rest[j].isActive
          ensures rest[i].userId != rest[j].userId
        {
          assert rest[i] == t[i + 1] && rest[j] == t[j + 1];
        }
      }
      OnePerUserLookup(rest, user);
      if t[0].userId == user && t[0].isActive {
        forall j | 0 <= j < |rest| ensures !(rest[j].userId == user && rest[j].isActive) {
          assert rest[j] == t[j + 1];
        }
      }
    }
  }

  /** Updates keep the rule (they never re-activate a row); so does a soft delete. */
  lemma UpdateOnePerUser(t: seq<Row>, w: Where, c: Change, now: Timestamp)
    requires OnePerUser(t)
    ensures OnePerUser(UpdateWhere(t, w, c, now))
  {
    var r := UpdateWhere(t, w, c, now);
    forall i, j | 0 <= i < j < |r| && r[i].isActive && r[j].isActive ensures r[i].userId != r[j].userId {
      assert t[i].isActive && t[j].isActive;
    }
  }

  // ---------------------------------------------------------------- resume rows

  const TITLE := "title"

  /** The column of a resume row that references rows of kind `k`. */
  function RefColumn(k: Kind): string
  {
    match k
    case PersonalInfo => "personal_information_id"
    case Summary => "professional_summary_ids"
    case WorkExperience => "work_experience_ids"
    case Project => "project_ids"
    case Skill => "skill_ids"
    case Education => "education_ids"
    case Certification => "certification_ids"
  }

  /** The ids a column value references: an array, or a single id. */
  function ValueRefs(v: Value): seq<int>
  {
    match v
    case Ids(ids) => ids
    case Int(i) => [i]
    case _ => []
  }

  /** The ids a resume row references in table `k`. */
  function RefsOf(cols: Columns, k: Kind): seq<int>
  {
    if RefColumn(k) in cols then ValueRefs(cols[RefColumn(k)]) else []
  }

  /** The columns the INSERT of `createResume` writes. */
  function ResumeColumns(v: ResumeValue): (cols: Columns)
    ensures TITLE in cols && cols[TITLE] == Text(v.title)
    ensures forall k :: RefsOf(cols, k) == if k == PersonalInfo then [v.personalInformationId] else v.refs.Of(k)
  {
    map[
      TITLE := Text(v.title),
      RefColumn(PersonalInfo) := Int(v.personalInformationId),
      RefColumn(Summary) := Ids(v.refs.summaries),
      RefColumn(WorkExperience) := Ids(v.refs.workExperiences),
      RefColumn(Project) := Ids(v.refs.projects),
      RefColumn(Skill) := Ids(v.refs.skills),
      RefColumn(Education) := Ids(v.refs.education),
      RefColumn(Certification) := Ids(v.refs.certifications)]
  }

  /** The validated update value of a resume as fields, in schema key order. */
  function ResumeFields(v: ResumeUpdateValue): (fs: seq<Field>)
    ensures |fs| == 8 && fs[0].key == TITLE
  {
    [Field(TITLE, if v.title.Some? then Some(Text(v.title.value)) else None),
     Field(RefColumn(PersonalInfo), if v.personalInformationId.Some? then Some(Int(v.personalInformationId.value)) else None),
     IdsField(v, Summary), IdsField(v, WorkExperience), IdsField(v, Project),
     IdsField(v, Skill), IdsField(v, Education), IdsField(v, Certification)]
  }

  function IdsField(v: ResumeUpdateValue, k: Kind): Field
  {
    Field(RefColumn(k), if v.IdsOf(k).Some? then Some(Ids(v.IdsOf(k).value)) else None)
  }

  function FieldIndex(k: Kind): (i: nat)
    ensures 1 <= i < 8
  {
    match k
    case PersonalInfo => 1
    case Summary => 2
    case WorkExperience => 3
    case Project => 4
    case Skill => 5
    case Education => 6
    case Certification => 7
  }

  /** The references of an updated resume: each list the update value defines replaces
      the stored one; the personal information changes only when its id is given. */
  lemma ResumePatchRefs(cols: Columns, v: ResumeUpdateValue, k: Kind)
    ensures RefsOf(Patch(cols, ResumeFields(v)), k) ==
      if k == PersonalInfo then
        (if v.personalInformationId.Some? then [v.personalInformationId.value] else RefsOf(cols, k))
      else (if v.IdsOf(k).Some? then v.IdsOf(k).value else RefsOf(cols, k))
  {
    if k == PersonalInfo {
      PersonalInfoPatchRefs(cols, v);
    } else {
      ListPatchRefs(cols, v, k);
    }
  }

  lemma PersonalInfoPatchRefs(cols: Columns, v: ResumeUpdateValue)
    ensures RefsOf(Patch(cols, ResumeFields(v)), PersonalInfo) ==
      if v.personalInformationId.Some? then [v.personalInformationId.value] else RefsOf(cols, PersonalInfo)
  {
    ResumeFieldKeys(v);
    IdAfterPatch(cols, ResumeFields(v), 1, PersonalInfo, v.personalInformationId);
  }

  lemma ListPatchRefs(cols: Columns, v: ResumeUpdateValue, k: Kind)
    requires k != PersonalInfo
    ensures RefsOf(Patch(cols, ResumeFields(v)), k) == if v.IdsOf(k).Some? then v.IdsOf(k).value else RefsOf(cols, k)
  {
    ResumeFieldKeys(v);
    ResumeFieldAt(v, k);
    IdsAfterPatch(cols, ResumeFields(v), FieldIndex(k), k, v.IdsOf(k));
  }

  /** The references in column `k` after a patch whose field `i` sets it to the list `ids`. */
  lemma IdsAfterPatch(cols: Columns, fs: seq<Field>, i: int, k: Kind, ids: Option<seq<int>>)
    requires DistinctKeys(fs) && 0 <= i < |fs|
    requires fs[i] == Field(RefColumn(k), if ids.Some? then Some(Ids(ids.value)) else None)
    ensures RefsOf(Patch(cols, fs), k) == if ids.Some? then ids.value else RefsOf(cols, k)
  {
    FieldRefs(cols, fs, i, k);
  }

  /** The references in column `k` after a patch whose field `i` sets it to the id `id`. */
  lemma IdAfterPatch(cols: Columns, fs: seq<Field>, i: int, k: Kind, id: Option<int>)
    requires DistinctKeys(fs) && 0 <= i < |fs|
    requires fs[i] == Field(RefColumn(k), if id.Some? then Some(Int(id.value)) else None)
    ensures RefsOf(Patch(cols, fs), k) == if id.Some? then [id.value] else RefsOf(cols, k)
  {
    FieldRefs(cols, fs, i, k);
  }

  /** Each column appears once in the update, at its own place. */
  lemma ResumeFieldKeys(v: ResumeUpdateValue)
    ensures DistinctKeys(ResumeFields(v))
  {
    var fs := ResumeFields(v);
    ResumeKeyLengths(v);
    KeyLengthsDistinct(fs);
  }

  lemma ResumeKeyLengths(v: ResumeUpdateValue)
    ensures var fs := ResumeFields(v);
      && |fs[0].key| == 5 && |fs[1].key| == 23 && |fs[2].key| == 24 && |fs[3].key| == 19
      && |fs[4].key| == 11 && |fs[5].key| == 9 && |fs[6].key| == 13 && |fs[7].key| == 17
  {
  }

  /** Keys of different lengths are different keys. */
  lemma KeyLengthsDistinct(fs: seq<Field>)
    requires forall i, j :: 0 <= i < j < |fs| ==> |fs[i].key| != |fs[j].key|
    ensures DistinctKeys(fs)
  {
  }

  lemma ResumeFieldAt(v: ResumeUpdateValue, k: Kind)
    ensures ResumeFields(v)[FieldIndex(k)] == if k == PersonalInfo then
      Field(RefColumn(PersonalInfo), if v.personalInformationId.Some? then Some(Int(v.personalInformationId.value)) else None)
      else IdsField(v, k)
  {
  }

  /** The references in column `k` after a patch whose field `i` is that column. */
  lemma FieldRefs(cols: Columns, fs: seq<Field>, i: int, k: Kind)
    requires DistinctKeys(fs) && 0 <= i < |fs| && fs[i].key == RefColumn(k)
    ensures RefsOf(Patch(cols, fs), k) == if fs[i].val.Some? then ValueRefs(fs[i].val.value) else RefsOf(cols, k)
  {
    if fs[i].val.Some? {
      PatchAt(cols, fs, i);
    } else {
      UndefinedKeeps(cols, fs, i);
    }
  }

  /** Every id names a row of `t` owned by `user`, whether still active or not. */
  predicate RefsOwnedBy(t: seq<Row>, ids: seq<int>, user: int)
  {
    forall i :: 0 <= i < |ids| ==> 1 <= ids[i] <= |t| && t[ids[i] - 1].userId == user
  }

  /** Everything a resume row references belongs to the resume's owner. */
  predicate ResumeRefsOk(tables: map<Kind, seq<Row>>, r: Row)
  {
    forall k :: k in tables ==> RefsOwnedBy(tables[k], RefsOf(r.cols, k), r.userId)
  }

  /** What the batch check accepts is owned by the caller. */
  lemma ValidatedRefsOwned(t: seq<Row>, ids: seq<int>, user: int)
    requires IdsAreIndices(t) && ValidateIds(t, ids, user)
    ensures RefsOwnedBy(t, ids, user)
  {
    ValidateIdsMeaning(t, ids, user);
    forall i | 0 <= i < |ids| ensures 1 <= ids[i] <= |t| && t[ids[i] - 1].userId == user {
      OwnsByIndex(t, ids[i], user);
    }
  }

  /** Rows keep their owners, so references stay owned when a table changes. */
  lemma TableStep(tables: map<Kind, seq<Row>>, resumes: seq<Row>, k: Kind, t2: seq<Row>)
    requires k in tables && Keeps(tables[k], t2)
    requires forall j :: 0 <= j < |resumes| ==> ResumeRefsOk(tables, resumes[j])
    ensures forall j :: 0 <= j < |resumes| ==> ResumeRefsOk(tables[k := t2], resumes[j])
  {
    forall j, kk | 0 <= j < |resumes| && kk in tables[k := t2]
      ensures RefsOwnedBy(tables[k := t2][kk], RefsOf(resumes[j].cols, kk), resumes[j].userId)
    {
      assert RefsOwnedBy(tables[kk], RefsOf(resumes[j].cols, kk), resumes[j].userId);
    }
  }

  /** Resume rows keep their owners and columns outside the update, so the invariant
      carries over to the rows the update does not hit. */
  lemma ResumeStep(tables: map<Kind, seq<Row>>, resumes: seq<Row>, r2: seq<Row>, id: int)
    requires |r2| == |resumes| && 1 <= id <= |resumes|
    requires forall j :: 0 <= j < |resumes| ==> ResumeRefsOk(tables, resumes[j])
    requires forall j :: 0 <= j < |resumes| && j != id - 1 ==> r2[j].cols == resumes[j].cols && r2[j].userId == resumes[j].userId
    requires ResumeRefsOk(tables, r2[id - 1])
    ensures forall j :: 0 <= j < |r2| ==> ResumeRefsOk(tables, r2[j])
  {
    forall j | 0 <= j < |r2| ensures ResumeRefsOk(tables, r2[j]) {
      if j != id - 1 {
        SameRefs(tables, resumes[j], r2[j]);
      }
    }
  }

  lemma SameRefs(tables: map<Kind, seq<Row>>, a: Row, b: Row)
    requires ResumeRefsOk(tables, a) && a.cols == b.cols && a.userId == b.userId
    ensures ResumeRefsOk(tables, b)
  {
  }

  // ---------------------------------------------------------------- a resume with its sections

  /** The response of `getResumeById`: the resume row, its personal information (or null)
      and the six sections. */
  datatype FullResume = FullResume(
    resume: Row, personalInformation: Option<Row>,
    professionalSummaries: seq<Row>, workExperiences: seq<Row>, projects: seq<Row>,
    skills: seq<Row>, education: seq<Row>, certifications: seq<Row>)
  {
    function Section(k: Kind): seq<Row>
    {
      match k
      case PersonalInfo => []
      case Summary => professionalSummaries
      case WorkExperience => workExperiences
      case Project => projects
      case Skill => skills
      case Education => education
      case Certification => certifications
    }
  }

  /** The seven follow-up queries: each section is its listed rows that are still active,
      in the section's order; an empty list skips the query. None of them filters by user. */
  function Expansion(tables: map<Kind, seq<Row>>, r: Row): (f: FullResume)
    requires forall k: Kind :: k in tables
    ensures f.resume == r
  {
    var pis := ActiveWithIds(tables[PersonalInfo], RefsOf(r.cols, PersonalInfo));
    FullResume(
      r,
      if pis == [] then None else Some(pis[0]),
      Expand(tables[Summary], RefsOf(r.cols, Summary), Summary),
      Expand(tables[WorkExperience], RefsOf(r.cols, WorkExperience), WorkExperience),
      Expand(tables[Project], RefsOf(r.cols, Project), Project),
      Expand(tables[Skill], RefsOf(r.cols, Skill), Skill),
      Expand(tables[Education], RefsOf(r.cols, Education), Education),
      Expand(tables[Certification], RefsOf(r.cols, Certification), Certification))
  }

  lemma SectionIs(tables: map<Kind, seq<Row>>, r: Row, k: Kind)
    requires forall k: Kind :: k in tables
    requires k != PersonalInfo
    ensures Expansion(tables, r).Section(k) == Expand(tables[k], RefsOf(r.cols, k), k)
  {
  }

  /** Each section holds exactly the listed rows that are still active, in the
      section's order; the personal information is the listed record if it is active. */
  lemma ExpansionMeaning(tables: map<Kind, seq<Row>>, r: Row)
    requires forall k: Kind :: k in tables
    ensures var f := Expansion(tables, r);
      && (forall k, x :: k != PersonalInfo ==>
            (x in f.Section(k) <==> x in tables[k] && x.id in RefsOf(r.cols, k) && x.isActive))
      && (forall k :: k != PersonalInfo ==> SortedBy(Comparator(ExpandOrder(k)), f.Section(k)))
      && (f.personalInformation.Some? ==>
            var p := f.personalInformation.value;
            p in tables[PersonalInfo] && p.id in RefsOf(r.cols, PersonalInfo) && p.isActive)
      && (f.personalInformation.None? <==>
            forall x :: x in tables[PersonalInfo] && x.id in RefsOf(r.cols, PersonalInfo) ==> !x.isActive)
  {
    var f := Expansion(tables, r);
    forall k | k != PersonalInfo
      ensures forall x :: x in f.Section(k) <==> x in tables[k] && x.id in RefsOf(r.cols, k) && x.isActive
      ensures SortedBy(Comparator(ExpandOrder(k)), f.Section(k))
    {
      SectionIs(tables, r, k);
    }
    var pis := ActiveWithIds(tables[PersonalInfo], RefsOf(r.cols, PersonalInfo));
    if pis != [] {
      assert pis[0] in pis;
    }
  }

  /** Although the follow-up queries do not filter by user, a resume whose references
      are owned shows only its owner's rows, all of them active. */
  lemma ExpansionOwned(tables: map<Kind, seq<Row>>, r: Row)
    requires forall k: Kind :: k in tables && IdsAreIndices(tables[k])
    requires ResumeRefsOk(tables, r)
    ensures ShowsOwnRows(tables, Expansion(tables, r), r.userId)
  {
    forall k | k != PersonalInfo
      ensures forall x :: x in Expansion(tables, r).Section(k) ==>
        x.userId == r.userId && x.isActive && x in tables[k]
    {
      SectionOwned(tables, r, k);
    }
    var pis := ActiveWithIds(tables[PersonalInfo], RefsOf(r.cols, PersonalInfo));
    if pis != [] {
      assert pis[0] in pis;
      assert RefsOwnedBy(tables[PersonalInfo], RefsOf(r.cols, PersonalInfo), r.userId);
      RowOfRef(tables[PersonalInfo], RefsOf(r.cols, PersonalInfo), r.userId, pis[0]);
    }
  }

  /** Every row `f` shows is an active row of its table owned by `user`. */
  predicate ShowsOwnRows(tables: map<Kind, seq<Row>>, f: FullResume, user: int)
    requires forall k: Kind :: k in tables
  {
    && (forall k, x :: k != PersonalInfo && x in f.Section(k) ==> x.userId == user && x.isActive && x in tables[k])
    && (f.personalInformation.Some? ==>
          f.personalInformation.value.userId == user && f.personalInformation.value.isActive)
  }

  lemma SectionOwned(tables: map<Kind, seq<Row>>, r: Row, k: Kind)
    requires forall k: Kind :: k in tables
    requires k != PersonalInfo && IdsAreIndices(tables[k])
    requires RefsOwnedBy(tables[k], RefsOf(r.cols, k), r.userId)
    ensures forall x :: x in Expansion(tables, r).Section(k) ==>
      x.userId == r.userId && x.isActive && x in tables[k]
  {
    SectionIs(tables, r, k);
    var ids := RefsOf(r.cols, k);
    forall x | x in Expand(tables[k], ids, k) ensures x.userId == r.userId {
      RowOfRef(tables[k], ids, r.userId, x);
    }
  }

  lemma RowOfRef(t: seq<Row>, ids: seq<int>, user: int, x: Row)
    requires IdsAreIndices(t) && RefsOwnedBy(t, ids, user)
    requires x in t && x.id in ids
    ensures x.userId == user
  {
    var j :| 0 <= j < |t| && t[j] == x;
    var i :| 0 <= i < |ids| && ids[i] == x.id;
    assert ids[i] - 1 == j;
  }

  /** Every list of a create value passes the batch check. */
  predicate RefsValid(tables: map<Kind, seq<Row>>, refs: RefLists, user: int)
    requires forall k: Kind :: k in tables
  {
    forall k :: k != PersonalInfo ==> ValidateIds(tables[k], refs.Of(k), user)
  }

  /** Every list an update value defines passes the batch check. */
  predicate UpdateRefsValid(tables: map<Kind, seq<Row>>, v: ResumeUpdateValue, user: int)
    requires forall k: Kind :: k in tables
  {
    forall k :: k != PersonalInfo && v.IdsOf(k).Some? ==> ValidateIds(tables[k], v.IdsOf(k).value, user)
  }

  /** The update check, kind by kind. */
  lemma UpdateRefsValidByKind(tables: map<Kind, seq<Row>>, v: ResumeUpdateValue, user: int)
    requires forall k: Kind :: k in tables
    ensures UpdateRefsValid(tables, v, user) <==>
      && (v.summaryIds.Some? ==> ValidateIds(tables[Summary], v.summaryIds.value, user))
      && (v.workExperienceIds.Some? ==> ValidateIds(tables[WorkExperience], v.workExperienceIds.value, user))
      && (v.projectIds.Some? ==> ValidateIds(tables[Project], v.projectIds.value, user))
      && (v.skillIds.Some? ==> ValidateIds(tables[Skill], v.skillIds.value, user))
      && (v.educationIds.Some? ==> ValidateIds(tables[Education], v.educationIds.value, user))
      && (v.certificationIds.Some? ==> ValidateIds(tables[Certification], v.certificationIds.value, user))
  {
    assert v.summaryIds == v.IdsOf(Summary) && v.workExperienceIds == v.IdsOf(WorkExperience);
    assert v.projectIds == v.IdsOf(Project) && v.skillIds == v.IdsOf(Skill);
    assert v.educationIds == v.IdsOf(Education) && v.certificationIds == v.IdsOf(Certification);
  }

  /** A resume that passed the checks of `createResume` references only its owner's rows. */
  lemma NewResumeOk(tables: map<Kind, seq<Row>>, v: ResumeValue, row: Row)
    requires forall k: Kind :: k in tables && IdsAreIndices(tables[k])
    requires Owns(tables[PersonalInfo], v.personalInformationId, row.userId)
    requires RefsValid(tables, v.refs, row.userId)
    requires row.cols == ResumeColumns(v)
    ensures ResumeRefsOk(tables, row)
  {
    forall k | k in tables ensures RefsOwnedBy(tables[k], RefsOf(row.cols, k), row.userId) {
      if k == PersonalInfo {
        OwnsByIndex(tables[k], v.personalInformationId, row.userId);
      } else {
        ValidatedRefsOwned(tables[k], v.refs.Of(k), row.userId);
      }
    }
  }

  /** So does a resume after an update that passed the checks of `updateResume`. */
  lemma UpdatedResumeOk(tables: map<Kind, seq<Row>>, row: Row, v: ResumeUpdateValue, row2: Row)
    requires forall k: Kind :: k in tables && IdsAreIndices(tables[k])
    requires ResumeRefsOk(tables, row)
    requires v.personalInformationId.Some? ==> Owns(tables[PersonalInfo], v.personalInformationId.value, row.userId)
    requires UpdateRefsValid(tables, v, row.userId)
    requires row2.userId == row.userId && row2.cols == Patch(row.cols, ResumeFields(v))
    ensures ResumeRefsOk(tables, row2)
  {
    forall k | k in tables ensures RefsOwnedBy(tables[k], RefsOf(row2.cols, k), row.userId) {
      UpdatedRefsOwned(tables, row, v, row2, k);
    }
  }

  lemma UpdatedRefsOwned(tables: map<Kind, seq<Row>>, row: Row, v: ResumeUpdateValue, row2: Row, k: Kind)
    requires k in tables && IdsAreIndices(tables[k])
    requires RefsOwnedBy(tables[k], RefsOf(row.cols, k), row.userId)
    requires k == PersonalInfo && v.personalInformationId.Some? ==>
      Owns(tables[PersonalInfo], v.personalInformationId.value, row.userId)
    requires k != PersonalInfo && v.IdsOf(k).Some? ==> ValidateIds(tables[k], v.IdsOf(k).value, row.userId)
    requires row2.cols == Patch(row.cols, ResumeFields(v))
    ensures RefsOwnedBy(tables[k], RefsOf(row2.cols, k), row.userId)
  {
    if k == PersonalInfo {
      PersonalInfoPatchRefs(row.cols, v);
      var given := if v.personalInformationId.Some? then Some([v.personalInformationId.value]) else None;
      if v.personalInformationId.Some? {
        OwnedSingle(tables[k], v.personalInformationId.value, row.userId);
      }
      assert RefsOf(row2.cols, k) == if given.Some? then given.value else RefsOf(row.cols, k);
      OwnedAfter(tables[k], RefsOf(row.cols, k), given, RefsOf(row2.cols, k), row.userId);
    } else {
      ListPatchRefs(row.cols, v, k);
      if v.IdsOf(k).Some? {
        ValidatedRefsOwned(tables[k], v.IdsOf(k).value, row.userId);
      }
      OwnedAfter(tables[k], RefsOf(row.cols, k), v.IdsOf(k), RefsOf(row2.cols, k), row.userId);
    }
  }

  lemma OwnedSingle(t: seq<Row>, id: int, user: int)
    requires IdsAreIndices(t) && Owns(t, id, user)
    ensures RefsOwnedBy(t, [id], user)
  {
    OwnsByIndex(t, id, user);
  }

  /** A list that is either kept or replaced by an owned list stays owned. */
  lemma OwnedAfter(t: seq<Row>, before: seq<int>, given: Option<seq<int>>, after: seq<int>, user: int)
    requires RefsOwnedBy(t, before, user)
    requires given.Some? ==> RefsOwnedBy(t, given.value, user)
    requires after == if given.Some? then given.value else before
    ensures RefsOwnedBy(t, after, user)
  {
  }

  lemma AppendResume(tables: map<Kind, seq<Row>>, resumes: seq<Row>, row: Row)
    requires IdsAreIndices(resumes) && row.id == |resumes| + 1
    requires forall j :: 0 <= j < |resumes| ==> ResumeRefsOk(tables, resumes[j])
    requires ResumeRefsOk(tables, row)
    ensures IdsAreIndices(resumes + [row])
    ensures forall j :: 0 <= j < |resumes + [row]| ==> ResumeRefsOk(tables, (resumes + [row])[j])
  {
    forall j | 0 <= j < |resumes + [row]| ensures ResumeRefsOk(tables, (resumes + [row])[j]) {
      if j < |resumes| {
        assert (resumes + [row])[j] == resumes[j];
      }
    }
  }

  // ---------------------------------------------------------------- the store

  class ResumeStore {
    /** One table per resource kind. */
    var tables: map<Kind, seq<Row>>
    var resumes: seq<Row>

    ghost predicate Valid()
      reads this
    {
      && (forall k: Kind :: k in tables && IdsAreIndices(tables[k]))
      && IdsAreIndices(resumes)
      && OnePerUser(tables[PersonalInfo])
      && (forall j :: 0 <= j < |resumes| ==> ResumeRefsOk(tables, resumes[j]))
    }

    constructor ()
      ensures Valid()
      ensures resumes == [] && forall k: Kind :: k in tables && tables[k] == []
    {
      tables := map[PersonalInfo := [], Summary := [], WorkExperience := [], Project := [],
                    Skill := [], Education := [], Certification := []];
      resumes := [];
      new;
      forall k: Kind ensures k in tables && tables[k] == [] {
        match k
        case PersonalInfo =>
        case Summary =>
        case WorkExperience =>
        case Project =>
        case Skill =>
        case Education =>
        case Certification =>
      }
    }

    // ------------------------------------------------------------ personal information

    /** 400 on a validation error, 409 when the caller already has an active record,
        otherwise 201 and the new row. */
    method CreatePersonalInformation(user: int, body: PersonalInfoBody, lib: Lib, now: Timestamp)
      returns (status: int, created: Option<Row>)
      requires Valid()
      modifies this
      ensures Valid()
      ensures var t := old(tables[PersonalInfo]);
        match ValidatePersonalInfo(body, lib)
        case None => status == BAD_REQUEST && created.None? && unchanged(this)
        case Some(cols) =>
          if ActiveOf(t, user) != [] then status == CONFLICT && created.None? && unchanged(this)
          else
            var row := Inserted(t, user, cols, now);
            && status == CREATED && created == Some(row)
            && resumes == old(resumes) && tables == old(tables)[PersonalInfo := t + [row]]
    {
      var v := ValidatePersonalInfo(body, lib);
      if v.None? {
        return BAD_REQUEST, None;
      }
      var t := tables[PersonalInfo];
      if ActiveOf(t, user) != [] {
        return CONFLICT, None;
      }
      var row := Inserted(t, user, v.value, now);
      var t2 := t + [row];
      assert forall i :: 0 <= i < |t| ==> !(t[i].userId == user && t[i].isActive) by {
        forall i | 0 <= i < |t| ensures !(t[i].userId == user && t[i].isActive) {
          assert t[i] in t;
        }
      }
      TableStep(tables, resumes, PersonalInfo, t2);
      tables := tables[PersonalInfo := t2];
      return CREATED, Some(row);
    }

    /** 404 when the caller has no active record, otherwise 200 and that record. */
    method GetPersonalInformation(user: int) returns (status: int, info: Option<Row>)
      requires Valid()
      ensures var t := tables[PersonalInfo];
        && (status == NOT_FOUND <==> forall x :: x in t ==> !(x.userId == user && x.isActive))
        && (status == OK || status == NOT_FOUND)
        && (info.Some? <==> status == OK)
        && (info.Some? ==> ActiveOf(t, user) == [info.value])
    {
      var rows := ActiveOf(tables[PersonalInfo], user);
      OnePerUserLookup(tables[PersonalInfo], user);
      if |rows| == 0 {
        return NOT_FOUND, None;
      }
      assert rows[0] in rows;
      return OK, Some(rows[0]);
    }

    /** 400 on a validation error, 404 without an active record; otherwise every active
        record of the caller takes the supplied fields. The "no fields" answer cannot
        occur: the `{}` default of `social_media_urls` is always among the fields. */
    method UpdatePersonalInformation(user: int, body: PersonalInfoBody, lib: Lib, now: Timestamp)
      returns (status: int, updated: Option<Row>)
      requires Valid()
      modifies this
      ensures Valid()
      ensures var t := old(tables[PersonalInfo]);
        match ValidatePersonalInfoUpdate(body, lib)
        case None => status == BAD_REQUEST && updated.None? && unchanged(this)
        case Some(fields) =>
          if ActiveOf(t, user) == [] then status == NOT_FOUND && updated.None? && unchanged(this)
          else
            var t2 := UpdateWhere(t, WhereUser(user), SetColumns(Defined(fields)), now);
            && status == OK && resumes == old(resumes) && tables == old(tables)[PersonalInfo := t2]
            && updated.Some? && updated.value in t2 && updated.value.userId == user && updated.value.isActive
            && updated.value.cols == Patch(ActiveOf(t, user)[0].cols, fields)
    {
      var v := ValidatePersonalInfoUpdate(body, lib);
      if v.None? {
        return BAD_REQUEST, None;
      }
      var t := tables[PersonalInfo];
      if ActiveOf(t, user) == [] {
        return NOT_FOUND, None;
      }
      var sets, paramCount := CollectDefined(v.value);
      PersonalInfoUpdateNotEmpty(body, lib);
      if |sets| == 0 {
        assert false;
      }
      var t2 := UpdateWhere(t, WhereUser(user), SetColumns(sets), now);
      UpdateKeeps(t, WhereUser(user), SetColumns(sets), now);
      UpdateOnePerUser(t, WhereUser(user), SetColumns(sets), now);
      TableStep(tables, resumes, PersonalInfo, t2);
      tables := tables[PersonalInfo := t2];
      HitIffActive(t, user);
      var i := FirstHit(t, WhereUser(user)).value;
      OnePerUserLookup(t, user);
      FirstActiveIsLookup(t, user, i);
      PatchDefined(t[i].cols, v.value);
      return OK, Some(t2[i]);
    }

    /** Soft-deletes every active record of the caller; 404 when there was none. */
    method DeletePersonalInformation(user: int, now: Timestamp) returns (status: int)
      requires Valid()
      modifies this
      ensures Valid()
      ensures var t := old(tables[PersonalInfo]);
        && resumes == old(resumes)
        && tables == old(tables)[PersonalInfo := UpdateWhere(t, WhereUser(user), Deactivate, now)]
        && (status == NOT_FOUND <==> ActiveOf(t, user) == [])
        && (status == OK || status == NOT_FOUND)
        && ActiveOf(tables[PersonalInfo], user) == []
    {
      var t := tables[PersonalInfo];
      var t2 := UpdateWhere(t, WhereUser(user), Deactivate, now);
      UpdateKeeps(t, WhereUser(user), Deactivate, now);
      UpdateOnePerUser(t, WhereUser(user), Deactivate, now);
      TableStep(tables, resumes, PersonalInfo, t2);
      tables := tables[PersonalInfo := t2];
      DeleteTwice(t, WhereUser(user), now, user);
      HitIffActive(t2, user);
      HitIffActive(t, user);
      var hit := FirstHit(t, WhereUser(user));
      if hit.None? {
        return NOT_FOUND;
      }
      return OK;
    }

    // ------------------------------------------------------------ the six collections

    /** 400 on a validation error, otherwise 201 and the new row of the body's kind. */
    method Create(user: int, body: Body, lib: Lib, now: Timestamp)
      returns (status: int, created: Option<Row>)
      requires Valid()
      modifies this
      ensures Valid()
      ensures var k := KindOf(body); var t := old(tables[k]);
        match ValidateCreate(body, now, lib)
        case None => status == BAD_REQUEST && created.None? && unchanged(this)
        case Some(cols) =>
          var row := Inserted(t, user, cols, now);
          && status == CREATED && created == Some(row)
          && resumes == old(resumes) && tables == old(tables)[k := t + [row]]
    {
      var v := ValidateCreate(body, now, lib);
      if v.None? {
        return BAD_REQUEST, None;
      }
      var k := KindOf(body);
      var t := tables[k];
      var row := Inserted(t, user, v.value, now);
      TableStep(tables, resumes, k, t + [row]);
      tables := tables[k := t + [row]];
      return CREATED, Some(row);
    }

    /** The caller's active rows of kind `k`, in the order of the listing route. */
    method GetAll(user: int, k: Kind) returns (status: int, rows: seq<Row>)
      requires Valid() && k != PersonalInfo
      ensures status == OK
      ensures forall x :: x in rows <==> x in tables[k] && x.userId == user && x.isActive
      ensures SortedBy(Comparator(ListOrder(k)), rows)
      ensures multiset(rows) == multiset(ActiveOf(tables[k], user))
    {
      rows := Listing(tables[k], user, ListOrder(k));
      status := OK;
    }

    /** 400 on a validation error, 404 unless the caller owns the active row `id`,
        400 when no field is defined; otherwise 200 and the updated row. */
    method Update(user: int, id: int, body: Body, lib: Lib, now: Timestamp, objectRule: bool)
      returns (status: int, updated: Option<Row>)
      requires Valid()
      modifies this
      ensures Valid()
      ensures Owns(old(tables[KindOf(body)]), id, user) ==> 1 <= id <= |old(tables[KindOf(body)])|
      ensures var k := KindOf(body); var t := old(tables[k]);
        match ValidateUpdate(body, now, lib, objectRule)
        case None => status == BAD_REQUEST && updated.None? && unchanged(this)
        case Some(fields) =>
          if !Owns(t, id, user) then status == NOT_FOUND && updated.None? && unchanged(this)
          else if Defined(fields) == [] then status == BAD_REQUEST && updated.None? && unchanged(this)
          else
            var t2 := UpdateWhere(t, WhereId(id), SetColumns(Defined(fields)), now);
            && status == OK && resumes == old(resumes) && tables == old(tables)[k := t2]
            && updated == Some(t2[id - 1])
            && updated.value.cols == Patch(t[id - 1].cols, fields) && updated.value.updatedAt == now
            && forall i :: 0 <= i < |t| && i != id - 1 ==> t2[i] == t[i]
    {
      var k := KindOf(body);
      OwnsByIndex(tables[k], id, user);
      var v := ValidateUpdate(body, now, lib, objectRule);
      if v.None? {
        return BAD_REQUEST, None;
      }
      if !Owns(tables[k], id, user) {
        return NOT_FOUND, None;
      }
      var sets, paramCount := CollectDefined(v.value);
      if |sets| == 0 {
        return BAD_REQUEST, None;
      }
      var row := SetRow(user, id, k, v.value, sets, now);
      return OK, Some(row);
    }

    /** The UPDATE of `update` on the caller's active row `id` of table `k`. */
    method SetRow(user: int, id: int, k: Kind, fields: seq<Field>, sets: seq<Field>, now: Timestamp)
      returns (row: Row)
      requires Valid() && Owns(tables[k], id, user) && sets == Defined(fields)
      modifies this
      ensures Valid()
      ensures resumes == old(resumes) && 1 <= id <= |old(tables[k])|
      ensures tables == old(tables)[k := UpdateWhere(old(tables[k]), WhereId(id), SetColumns(sets), now)]
      ensures row == tables[k][id - 1]
      ensures row.cols == Patch(old(tables[k])[id - 1].cols, fields) && row.updatedAt == now
      ensures forall i :: 0 <= i < |old(tables[k])| && i != id - 1 ==> tables[k][i] == old(tables[k])[i]
    {
      var t := tables[k];
      OwnsByIndex(t, id, user);
      var t2 := UpdateWhere(t, WhereId(id), SetColumns(sets), now);
      UpdateById(t, id, SetColumns(sets), now);
      UpdateKeeps(t, WhereId(id), SetColumns(sets), now);
      if k == PersonalInfo {
        UpdateOnePerUser(t, WhereId(id), SetColumns(sets), now);
      }
      TableStep(tables, resumes, k, t2);
      tables := tables[k := t2];
      PatchDefined(t[id - 1].cols, fields);
      row := t2[id - 1];
    }

    /** 404 unless the caller owns the active row `id`; otherwise 200 and the row is
        marked inactive. */
    method Delete(user: int, k: Kind, id: int, now: Timestamp) returns (status: int)
      requires Valid() && k != PersonalInfo
      modifies this
      ensures Valid()
      ensures var t := old(tables[k]);
        if !Owns(t, id, user) then status == NOT_FOUND && unchanged(this)
        else
          var t2 := UpdateWhere(t, WhereId(id), Deactivate, now);
          && status == OK && resumes == old(resumes) && tables == old(tables)[k := t2]
          && !t2[id - 1].isActive && t2[id - 1].updatedAt == now
          && (forall i :: 0 <= i < |t| && i != id - 1 ==> t2[i] == t[i])
          && !Owns(t2, id, user)
    {
      var t := tables[k];
      if !Owns(t, id, user) {
        return NOT_FOUND;
      }
      OwnsByIndex(t, id, user);
      var t2 := UpdateWhere(t, WhereId(id), Deactivate, now);
      UpdateKeeps(t, WhereId(id), Deactivate, now);
      TableStep(tables, resumes, k, t2);
      tables := tables[k := t2];
      DeleteTwice(t, WhereId(id), now, user);
      return OK;
    }

    // ------------------------------------------------------------ resumes

    /** The six batch checks of `createResume`. */
    method CheckRefs(refs: RefLists, user: int) returns (ok: bool)
      requires Valid()
      ensures ok <==> RefsValid(tables, refs, user)
    {
      var validSummaries := ValidateIds(tables[Summary], refs.summaries, user);
      var validWorkExp := ValidateIds(tables[WorkExperience], refs.workExperiences, user);
      var validProjects := ValidateIds(tables[Project], refs.projects, user);
      var validSkills := ValidateIds(tables[Skill], refs.skills, user);
      var validEducation := ValidateIds(tables[Education], refs.education, user);
      var validCertifications := ValidateIds(tables[Certification], refs.certifications, user);
      ok := validSummaries && validWorkExp && validProjects && validSkills && validEducation && validCertifications;
    }

    /** The checks of `updateResume` on the referenced rows, in their order; each
        applies only to a defined key. */
    method CheckUpdateRefs(v: ResumeUpdateValue, user: int) returns (ok: bool)
      requires Valid()
      ensures ok <==>
        && (v.personalInformationId.Some? ==> Owns(tables[PersonalInfo], v.personalInformationId.value, user))
        && UpdateRefsValid(tables, v, user)
    {
      UpdateRefsValidByKind(tables, v, user);
      if v.personalInformationId.Some? && !Owns(tables[PersonalInfo], v.personalInformationId.value, user) {
        return false;
      }
      if v.summaryIds.Some? && !ValidateIds(tables[Summary], v.summaryIds.value, user) {
        return false;
      }
      if v.workExperienceIds.Some? && !ValidateIds(tables[WorkExperience], v.workExperienceIds.value, user) {
        return false;
      }
      if v.projectIds.Some? && !ValidateIds(tables[Project], v.projectIds.value, user) {
        return false;
      }
      if v.skillIds.Some? && !ValidateIds(tables[Skill], v.skillIds.value, user) {
        return false;
      }
      if v.educationIds.Some? && !ValidateIds(tables[Education], v.educationIds.value, user) {
        return false;
      }
      if v.certificationIds.Some? && !ValidateIds(tables[Certification], v.certificationIds.value, user) {
        return false;
      }
      return true;
    }

    /** 400 on a validation error, 400 unless the caller owns the active personal
        information and every referenced row; otherwise 201 and the new resume. */
    method CreateResume(user: int, body: ResumeBody, now: Timestamp)
      returns (status: int, created: Option<Row>)
      requires Valid()
      modifies this
      ensures Valid()
      ensures match ValidateResume(body)
        case None => status == BAD_REQUEST && created.None? && unchanged(this)
        case Some(v) =>
          if !Owns(old(tables[PersonalInfo]), v.personalInformationId, user) || !RefsValid(old(tables), v.refs, user)
          then status == BAD_REQUEST && created.None? && unchanged(this)
          else
            var row := Inserted(old(resumes), user, ResumeColumns(v), now);
            && status == CREATED && created == Some(row)
            && tables == old(tables) && resumes == old(resumes) + [row]
    {
      var v := ValidateResume(body);
      if v.None? {
        return BAD_REQUEST, None;
      }
      var value := v.value;
      if !Owns(tables[PersonalInfo], value.personalInformationId, user) {
        return BAD_REQUEST, None;
      }
      var refsValid := CheckRefs(value.refs, user);
      if !refsValid {
        return BAD_REQUEST, None;
      }
      var row := Inserted(resumes, user, ResumeColumns(value), now);
      NewResumeOk(tables, value, row);
      AppendResume(tables, resumes, row);
      resumes := resumes + [row];
      return CREATED, Some(row);
    }

    /** The caller's active resumes, newest first. */
    method GetResumes(user: int) returns (status: int, rows: seq<Row>)
      requires Valid()
      ensures status == OK
      ensures forall x :: x in rows <==> x in resumes && x.userId == user && x.isActive
      ensures SortedBy(Comparator(CreatedDesc), rows)
      ensures multiset(rows) == multiset(ActiveOf(resumes, user))
    {
      rows := Listing(resumes, user, CreatedDesc);
      status := OK;
    }

    /** 404 unless the caller owns the active resume `id`; otherwise 200 and the resume
        with its sections, which hold only the caller's active rows it lists. */
    method GetResumeById(user: int, id: int) returns (status: int, full: Option<FullResume>)
      requires Valid()
      ensures !Owns(resumes, id, user) ==> status == NOT_FOUND && full.None?
      ensures Owns(resumes, id, user) ==>
        && status == OK && 1 <= id <= |resumes| && full == Some(Expansion(tables, resumes[id - 1]))
        && full.value.resume.userId == user
        && ShowsOwnRows(tables, full.value, user)
    {
      if !Owns(resumes, id, user) {
        return NOT_FOUND, None;
      }
      OwnsByIndex(resumes, id, user);
      var r := resumes[id - 1];
      ExpansionOwned(tables, r);
      return OK, Some(Expansion(tables, r));
    }

    /** 400 on a validation error, 404 unless the caller owns the active resume, 400 when
        a given personal information id or list is not the caller's; otherwise 200 and the
        updated resume. The "no fields" answer cannot occur (the title is always set). */
    method UpdateResume(user: int, id: int, body: ResumeBody, now: Timestamp)
      returns (status: int, updated: Option<Row>)
      requires Valid()
      modifies this
      ensures Valid()
      ensures Owns(old(resumes), id, user) ==> 1 <= id <= |old(resumes)| == |resumes|
      ensures match ValidateResumeUpdate(body)
        case None => status == BAD_REQUEST && updated.None? && unchanged(this)
        case Some(v) =>
          if !Owns(old(resumes), id, user) then status == NOT_FOUND && updated.None? && unchanged(this)
          else if (v.personalInformationId.Some? && !Owns(old(tables[PersonalInfo]), v.personalInformationId.value, user))
               || !UpdateRefsValid(old(tables), v, user)
          then status == BAD_REQUEST && updated.None? && unchanged(this)
          else
            var r2 := UpdateWhere(old(resumes), WhereId(id), SetColumns(Defined(ResumeFields(v))), now);
            && status == OK && tables == old(tables) && resumes == r2
            && updated == Some(r2[id - 1])
            && updated.value.cols == Patch(old(resumes)[id - 1].cols, ResumeFields(v))
    {
      OwnsByIndex(resumes, id, user);
      var v := ValidateResumeUpdate(body);
      if v.None? {
        return BAD_REQUEST, None;
      }
      var value := v.value;
      if !Owns(resumes, id, user) {
        return NOT_FOUND, None;
      }
      var refsValid := CheckUpdateRefs(value, user);
      if !refsValid {
        return BAD_REQUEST, None;
      }
      var fields := ResumeFields(value);
      var sets, paramCount := CollectDefined(fields);
      assert fields[0] in sets;
      if |sets| == 0 {
        assert false;
      }
      var row := SetResume(user, id, value, sets, now);
      return OK, Some(row);
    }

    /** The closing UPDATE of `updateResume`, once every check has passed. */
    method SetResume(user: int, id: int, v: ResumeUpdateValue, sets: seq<Field>, now: Timestamp)
      returns (row: Row)
      requires Valid() && Owns(resumes, id, user)
      requires v.personalInformationId.Some? ==> Owns(tables[PersonalInfo], v.personalInformationId.value, user)
      requires UpdateRefsValid(tables, v, user)
      requires sets == Defined(ResumeFields(v))
      modifies this
      ensures Valid()
      ensures tables == old(tables) && 1 <= id <= |old(resumes)|
      ensures resumes == UpdateWhere(old(resumes), WhereId(id), SetColumns(sets), now)
      ensures row == resumes[id - 1] && row.cols == Patch(old(resumes)[id - 1].cols, ResumeFields(v))
    {
      OwnsByIndex(resumes, id, user);
      var fields := ResumeFields(v);
      var old_row := resumes[id - 1];
      var r2 := UpdateWhere(resumes, WhereId(id), SetColumns(sets), now);
      PatchDefined(old_row.cols, fields);
      UpdateById(resumes, id, SetColumns(sets), now);
      UpdatedResumeOk(tables, old_row, v, r2[id - 1]);
      ResumeStep(tables, resumes, r2, id);
      UpdateKeeps(resumes, WhereId(id), SetColumns(sets), now);
      resumes := r2;
      row := r2[id - 1];
    }

    /** Soft-deletes the caller's active resume `id`; 404 when there is none. */
    method DeleteResume(user: int, id: int, now: Timestamp) returns (status: int)
      requires Valid()
      modifies this
      ensures Valid()
      ensures && tables == old(tables)
              && resumes == UpdateWhere(old(resumes), WhereIdAndUser(id, user), Deactivate, now)
              && (status == NOT_FOUND <==> !Owns(old(resumes), id, user))
              && (status == OK || status == NOT_FOUND)
              && !Owns(resumes, id, user)
    {
      var r2 := UpdateWhere(resumes, WhereIdAndUser(id, user), Deactivate, now);
      UpdateKeeps(resumes, WhereIdAndUser(id, user), Deactivate, now);
      assert forall j :: 0 <= j < |r2| ==> r2[j].cols == resumes[j].cols && r2[j].userId == resumes[j].userId;
      assert forall j :: 0 <= j < |r2| ==> ResumeRefsOk(tables, r2[j]) by {
        forall j | 0 <= j < |r2| ensures ResumeRefsOk(tables, r2[j]) {
          SameRefs(tables, resumes[j], r2[j]);
        }
      }
      var hit := FirstHit(resumes, WhereIdAndUser(id, user));
      OwnsIsHit(resumes, id, user);
      NotOwnedAfterDelete(resumes, id, user, now);
      resumes := r2;
      if hit.None? {
        return NOT_FOUND;
      }
      return OK;
    }
  }

  // ---------------------------------------------------------------- helpers of the store

  lemma FirstActiveIsLookup(t: seq<Row>, user: int, i: nat)
    requires FirstHit(t, WhereUser(user)) == Some(i)
    requires |ActiveOf(t, user)| <= 1
    ensures ActiveOf(t, user) == [t[i]]
  {
    assert t[i] in ActiveOf(t, user);
  }

  /** The personal-information UPDATE hits a row exactly when the lookup finds one. */
  lemma HitIffActive(t: seq<Row>, user: int)
    ensures FirstHit(t, WhereUser(user)).None? <==> ActiveOf(t, user) == []
  {
    var h := FirstHit(t, WhereUser(user));
    if h.Some? {
      assert t[h.value] in ActiveOf(t, user);
    }
  }

  lemma OwnsIsHit(t: seq<Row>, id: int, user: int)
    ensures FirstHit(t, WhereIdAndUser(id, user)).Some? <==> Owns(t, id, user)
  {
    var h := FirstHit(t, WhereIdAndUser(id, user));
    if h.Some? {
      assert OwnedAt(t, h.value, id, user);
    }
    if Owns(t, id, user) {
      var i :| 0 <= i < |t| && OwnedAt(t, i, id, user);
      assert Hits(WhereIdAndUser(id, user), t[i]);
    }
  }

  lemma NotOwnedAfterDelete(t: seq<Row>, id: int, user: int, now: Timestamp)
    ensures !Owns(UpdateWhere(t, WhereIdAndUser(id, user), Deactivate, now), id, user)
  {
    var t2 := UpdateWhere(t, WhereIdAndUser(id, user), Deactivate, now);
    DeleteTwice(t, WhereIdAndUser(id, user), now, user);
    OwnsIsHit(t2, id, user);
  }

  lemma PersonalInfoUpdateNotEmpty(body: PersonalInfoBody, lib: Lib)
    requires ValidatePersonalInfoUpdate(body, lib).Some?
    ensures Defined(ValidatePersonalInfoUpdate(body, lib).value) != []
  {
    var fs := ValidatePersonalInfoUpdate(body, lib).value;
    var i :| 0 <= i < |fs| && fs[i].key == "social_media_urls" && fs[i].val.Some?;
    assert fs[i] in Defined(fs);
  }

  // ---------------------------------------------------------------- properties

  /** Because the update schema still applies the defaults, an update that leaves out a
      list empties it, and one that leaves out the title resets it to 'Default Resume'. */
  lemma ResumeUpdateResets(cols: Columns, b: ResumeBody)
    requires ResumeFieldsOk(b)
    requires b.summaryIds.None? && b.workExperienceIds.None? && b.projectIds.None?
    requires b.skillIds.None? && b.educationIds.None? && b.certificationIds.None?
    ensures var after := Patch(cols, ResumeFields(ValidateResumeUpdate(b).value));
      && (forall k :: k != PersonalInfo ==> RefsOf(after, k) == [])
      && (b.title.None? ==> TITLE in after && after[TITLE] == Text(DEFAULT_TITLE))
  {
    var v := ValidateResumeUpdate(b).value;
    forall k | k != PersonalInfo
      ensures RefsOf(Patch(cols, ResumeFields(v)), k) == []
    {
      ResumePatchRefs(cols, v, k);
    }
    ResumeFieldKeys(v);
    PatchAt(cols, ResumeFields(v), 0);
  }

  lemma WorkExperienceFieldKeys(w: WorkExperienceBody)
    ensures DistinctKeys(UpdateFields(WorkExperienceB(w)))
  {
  }

  /** The update schema checks the body alone, never against the stored row: moving the
      start of a finished job past its end and marking it current is accepted, and the
      row then breaks both rules the create schema enforces. */
  lemma WorkExperienceUpdateBreaksDates(
    w0: WorkExperienceBody, now: Timestamp, lib: Lib, objectRule: bool, newStart: Timestamp)
    requires CreateOk(WorkExperienceB(w0), now, lib) && w0.endDate.Some?
    requires w0.endDate.value < newStart <= now
    ensures var cols := ValidateCreate(WorkExperienceB(w0), now, lib).value;
      var body := WorkExperienceB(WorkExperienceBody(None, None, None, None, Some(newStart), None, Some(true), None));
      && ValidateUpdate(body, now, lib, objectRule).Some?
      && var after := Patch(cols, ValidateUpdate(body, now, lib, objectRule).value);
      && after["start_date"] == Date(newStart) && after["end_date"] == Date(w0.endDate.value)
      && after["is_current"] == Flag(true)
      && !CreatedShape(WorkExperience, after, now)
  {
    var cols := ValidateCreate(WorkExperienceB(w0), now, lib).value;
    var nb := WorkExperienceBody(None, None, None, None, Some(newStart), None, Some(true), None);
    assert ValidateUpdate(WorkExperienceB(nb), now, lib, objectRule).value == UpdateFields(WorkExperienceB(nb));
    assert "end_date" in cols && cols["end_date"] == Date(w0.endDate.value);
    StartCurrentPatch(cols, newStart);
  }

  lemma StartCurrentPatch(cols: Columns, newStart: Timestamp)
    ensures var nb := WorkExperienceBody(None, None, None, None, Some(newStart), None, Some(true), None);
      var after := Patch(cols, UpdateFields(WorkExperienceB(nb)));
      && "start_date" in after && after["start_date"] == Date(newStart)
      && "is_current" in after && after["is_current"] == Flag(true)
      && ("end_date" in cols ==> "end_date" in after && after["end_date"] == cols["end_date"])
  {
    var nb := WorkExperienceBody(None, None, None, None, Some(newStart), None, Some(true), None);
    var fs := UpdateFields(WorkExperienceB(nb));
    WorkExperienceFieldKeys(nb);
    PatchAt(cols, fs, 4);
    PatchAt(cols, fs, 6);
    UndefinedKeeps(cols, fs, 5);
  }

  /** Only the defined fields reach the SET list. */
  lemma NothingDefined(fields: seq<Field>)
    requires forall i :: 0 <= i < |fields| ==> fields[i].val.None?
    ensures Defined(fields) == []
  {
  }

  /** The body `{}` sent to the route of collection `k`. */
  function EmptyBody(k: Kind): (b: Body)
    requires k != PersonalInfo
    ensures KindOf(b) == k
  {
    match k
    case Summary => SummaryB(SummaryBody(None))
    case WorkExperience => WorkExperienceB(WorkExperienceBody(None, None, None, None, None, None, None, None))
    case Project => ProjectB(ProjectBody(None, None, None, None, None))
    case Skill => SkillB(SkillBody(None, None))
    case Education => EducationB(EducationBody(None, None, None, None, None, None, None))
    case Certification => CertificationB(CertificationBody(None, None, None))
  }

  /** An update with the body `{}` passes validation on the summary, project, skill,
      education and certification routes and is then answered "No valid fields to
      update" (400), since no field is defined. */
  lemma EmptyUpdateRefused(k: Kind, now: Timestamp, lib: Lib, objectRule: bool)
    requires k != PersonalInfo && k != WorkExperience
    ensures ValidateUpdate(EmptyBody(k), now, lib, objectRule).Some?
    ensures Defined(ValidateUpdate(EmptyBody(k), now, lib, objectRule).value) == []
  {
    NothingDefined(UpdateFields(EmptyBody(k)));
  }

  /** The same body on the work-experience route (when its object rule does not run)
      is accepted and writes one column, `is_current = false`, from the default. */
  lemma EmptyWorkExperienceUpdate(now: Timestamp, lib: Lib)
    ensures ValidateUpdate(EmptyBody(WorkExperience), now, lib, false).Some?
    ensures Defined(ValidateUpdate(EmptyBody(WorkExperience), now, lib, false).value)
      == [Field("is_current", Some(Flag(false)))]
  {
    var fs := UpdateFields(EmptyBody(WorkExperience));
    assert fs[..7][..6] == fs[..6];
    NothingDefined(fs[..6]);
    assert fs[..8][..7] == fs[..7];
    assert fs[..8] == fs;
  }
}
