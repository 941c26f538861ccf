/** The four per-domain projectors of functions/src/index.ts, written as the
    handlers build their `return_data` objects, and the whitelist copy that
    both the club projector and the event ingestion perform. */
module Projectors {
  import opened JsValues
  import opened Projection

  const CoursePrefix: string := "https://thecourseforum.com/course/"
  const ClubPhotoPrefix: string := "https://virginia-cdn.presence.io/organization-photos/cea28f2b-baa9-4c47-8879-da8d675e4471/"
  const OrganizationPrefix: string := "https://virginia.presence.io/organization/"
  const EventPhotoPrefix: string := "https://virginia-cdn.presence.io/event-photos/cea28f2b-baa9-4c47-8879-da8d675e4471/"

  /** The club fields every club record carries. */
  const ClubKeys: seq<string> := ["memberCount", "regularMeetingLocation", "description", "regularMeetingTime", "name", "categories"]

  // ---------------------------------------------------------------------------
  // Whitelist copy: `for (key of keys) out[key] = src[key]` on a fresh object.

  /** The fresh object holding exactly `keys`, each read from `src`. */
  function Whitelist(keys: seq<string>, src: Obj): (r: Obj)
    ensures r.Keys == KeySet(keys)
    ensures forall k :: k in keys ==> r[k] == Get(src, k)
  {
    map k | k in keys :: Get(src, k)
  }

  /** The copy loop itself. */
  method CopyKeys(keys: seq<string>, src: Obj) returns (out: Obj)
    ensures out == Whitelist(keys, src)
  {
    out := map[];
    var i := 0;
    while i < |keys|
      invariant 0 <= i <= |keys|
      invariant out == Whitelist(keys[..i], src)
    {
      out := out[keys[i] := Get(src, keys[i])];
      i := i + 1;
      assert keys[..i] == keys[..i - 1] + [keys[i - 1]];
    }
    assert keys[..i] == keys;
  }

  // ---------------------------------------------------------------------------
  // Courses (search_classes)

  function CourseUrl(data: Obj): string
  {
    CoursePrefix + Render(Get(data, "mnemonic")) + "/" + Render(Get(data, "number"))
  }

  function CourseRef(data: Obj): string
  {
    Render(Get(data, "mnemonic")) + " " + Render(Get(data, "number"))
  }

  /** The course record, assignment by assignment (`avg_rating` is assigned twice). */
  function ProjectCourse(data: Obj, score: Value): (r: Obj)
    ensures r.Keys == {"title", "description", "score", "avg_rating", "url", "ref"}
  {
    map[]
      ["title" := Get(data, "title")]
      ["description" := Get(data, "description")]
      ["score" := Some(score)]
      ["avg_rating" := Get(data, "avg_rating")]
      ["url" := Some(Str(CourseUrl(data)))]
      ["ref" := Some(Str(CourseRef(data)))]
      ["avg_rating" := Get(data, "avg_rating")]
  }

  /** The copied course fields are the document's (possibly undefined) values,
      the score is the match's, and the links are the two templates. */
  lemma CourseFields(data: Obj, score: Value)
    ensures var r := ProjectCourse(data, score);
      && r["title"] == Get(data, "title")
      && r["description"] == Get(data, "description")
      && r["avg_rating"] == Get(data, "avg_rating")
      && r["score"] == Some(score)
      && r["url"] == Some(Str(CourseUrl(data)))
      && r["ref"] == Some(Str(CourseRef(data)))
  {
  }

  /** Recovers mnemonic and number from a course URL. */
  function ParseCourseUrl(url: string): Option<(string, string)>
  {
    match StripPrefix(CoursePrefix, url)
    case None => None
    case Some(rest) => SplitFirst(rest, '/')
  }

  /** The course URL names the course: from a defined, slash-free mnemonic and
      any number, the URL parses back to exactly those two texts. */
  lemma CourseUrlRoundTrip(data: Obj, mnemonic: string, number: string)
    requires Get(data, "mnemonic") == Some(Str(mnemonic)) && Get(data, "number") == Some(Str(number))
    requires '/' !in mnemonic
    ensures ParseCourseUrl(CourseUrl(data)) == Some((mnemonic, number))
  {
    assert CourseUrl(data) == CoursePrefix + (mnemonic + "/" + number);
    StripPrefixOfConcat(CoursePrefix, mnemonic + "/" + number);
    SplitFirstOfJoin(mnemonic, '/', number);
  }

  /** The course reference `"<mnemonic> <number>"` splits back at its first space. */
  lemma CourseRefRoundTrip(data: Obj, mnemonic: string, number: string)
    requires Get(data, "mnemonic") == Some(Str(mnemonic)) && Get(data, "number") == Some(Str(number))
    requires ' ' !in mnemonic
    ensures SplitFirst(CourseRef(data), ' ') == Some((mnemonic, number))
  {
    assert CourseRef(data) == mnemonic + [' '] + number;
    SplitFirstOfJoin(mnemonic, ' ', number);
  }

  /** A document missing its mnemonic or its number still gets a URL and a
      reference: the missing field is rendered as the text "undefined". */
  lemma CourseMissingFieldsRenderUndefined(data: Obj)
    ensures Get(data, "mnemonic") == None ==>
              && CourseUrl(data) == CourseUrl(data["mnemonic" := Some(Str("undefined"))])
              && CourseRef(data) == "undefined " + Render(Get(data, "number"))
    ensures Get(data, "number") == None ==>
              && CourseUrl(data) == CoursePrefix + Render(Get(data, "mnemonic")) + "/undefined"
              && CourseRef(data) == Render(Get(data, "mnemonic")) + " undefined"
  {
  }

  const CourseShape: Shape := Shape(
    ["title", "description", "avg_rating"],
    [],
    [Derived("url", [Lit(CoursePrefix), Slot("mnemonic"), Lit("/"), Slot("number")]),
     Derived("ref", [Slot("mnemonic"), Lit(" "), Slot("number")])],
    true)

  lemma CourseShapeNames()
    ensures DerivedNames(CourseShape.derived) == {"url", "ref"}
  {
    var sh := CourseShape;
    assert sh.derived[0] in sh.derived && sh.derived[1] in sh.derived;
  }

  lemma CourseShapeWellFormed()
    ensures WellFormed(CourseShape)
  {
    CourseShapeNames();
  }

  lemma CourseShapeKeys(data: Obj)
    ensures Keys(CourseShape, data) == {"title", "description", "score", "avg_rating", "url", "ref"}
  {
    CourseShapeNames();
    assert DefinedKeys(CourseShape.optional, data) == {};
  }

  lemma CourseEqualsShape(data: Obj, score: Value)
    requires WellFormed(CourseShape)
    ensures ProjectCourse(data, score) == Project(CourseShape, data, score)
  {
    CourseShapeKeys(data);
    CourseFields(data, score);
    FillFour(Lit(CoursePrefix), Slot("mnemonic"), Lit("/"), Slot("number"), data);
    FillThree(Slot("mnemonic"), Lit(" "), Slot("number"), data);
    ProjectCharacterised(CourseShape, data, score, ProjectCourse(data, score));
  }

  /** The course projector is the course instance of the generic projection. */
  lemma CourseIsShape(data: Obj, score: Value)
    ensures WellFormed(CourseShape)
    ensures ProjectCourse(data, score) == Project(CourseShape, data, score)
  {
    CourseShapeWellFormed();
    CourseEqualsShape(data, score);
  }

  // ---------------------------------------------------------------------------
  // Clubs (search_clubs)

  function ClubPhoto(data: Obj): string
  {
    ClubPhotoPrefix + Render(Get(data, "photoUri"))
  }

  function ClubUrl(data: Obj): string
  {
    OrganizationPrefix + Render(Get(data, "uri"))
  }

  /** The club record: the whitelist, `cover` when defined, the photo and page URLs and the score. */
  function ProjectClub(data: Obj, score: Value): (r: Obj)
    ensures r.Keys == KeySet(ClubKeys) + {"photo", "url", "score"} + (if Get(data, "cover").Some? then {"cover"} else {})
  {
    var base := Whitelist(ClubKeys, data);
    var withCover := if Get(data, "cover") != None then base["cover" := Get(data, "cover")] else base;
    withCover
      ["photo" := Some(Str(ClubPhoto(data)))]
      ["url" := Some(Str(ClubUrl(data)))]
      ["score" := Some(score)]
  }

  /** Every whitelisted club field and `cover` (when present) is the document's value; the score is the match's. */
  lemma ClubFields(data: Obj, score: Value)
    ensures var r := ProjectClub(data, score);
      && (forall k :: k in ClubKeys ==> r[k] == Get(data, k))
      && ("cover" in r ==> r["cover"] == Get(data, "cover"))
      && r["photo"] == Some(Str(ClubPhoto(data)))
      && r["url"] == Some(Str(ClubUrl(data)))
      && r["score"] == Some(score)
  {
  }

  /** The club page URL gives back the club's `uri`, and the photo URL its `photoUri`. */
  lemma ClubUrlsRoundTrip(data: Obj, uri: string, photoUri: string)
    requires Get(data, "uri") == Some(Str(uri)) && Get(data, "photoUri") == Some(Str(photoUri))
    ensures StripPrefix(OrganizationPrefix, ClubUrl(data)) == Some(uri)
    ensures StripPrefix(ClubPhotoPrefix, ClubPhoto(data)) == Some(photoUri)
  {
    StripPrefixOfConcat(OrganizationPrefix, uri);
    StripPrefixOfConcat(ClubPhotoPrefix, photoUri);
  }

  const ClubShape: Shape := Shape(
    ClubKeys,
    ["cover"],
    [Derived("photo", [Lit(ClubPhotoPrefix), Slot("photoUri")]),
     Derived("url", [Lit(OrganizationPrefix), Slot("uri")])],
    true)

  lemma ClubShapeNames()
    ensures DerivedNames(ClubShape.derived) == {"photo", "url"}
  {
    var sh := ClubShape;
    assert sh.derived[0] in sh.derived && sh.derived[1] in sh.derived;
  }

  lemma ClubShapeWellFormed()
    ensures WellFormed(ClubShape)
  {
    ClubShapeNames();
  }

  lemma ClubEqualsShape(data: Obj, score: Value)
    requires WellFormed(ClubShape)
    ensures ProjectClub(data, score) == Project(ClubShape, data, score)
  {
    ClubShapeNames();
    ClubFields(data, score);
    FillTwo(Lit(ClubPhotoPrefix), Slot("photoUri"), data);
    FillTwo(Lit(OrganizationPrefix), Slot("uri"), data);
    assert ProjectClub(data, score).Keys == Keys(ClubShape, data);
    ProjectCharacterised(ClubShape, data, score, ProjectClub(data, score));
  }

  /** The club projector is the club instance of the generic projection. */
  lemma ClubIsShape(data: Obj, score: Value)
    ensures WellFormed(ClubShape)
    ensures ProjectClub(data, score) == Project(ClubShape, data, score)
  {
    ClubShapeWellFormed();
    ClubEqualsShape(data, score);
  }

  // ---------------------------------------------------------------------------
  // Professors (find_professors)

  /** The professor record, assignment by assignment. */
  function ProjectProfessor(data: Obj, score: Value): (r: Obj)
    ensures {"name", "credentials", "title", "bio", "score"} <= r.Keys
    ensures forall k :: k in r ==> k in {"name", "credentials", "title", "bio", "score", "headshot", "googleScholar", "email"}
  {
    var r1: Obj := map[]
      ["name" := Get(data, "name")]
      ["credentials" := Get(data, "credentials")]
      ["title" := Get(data, "title")];
    var r2 := if Get(data, "headshot") != None then r1["headshot" := Get(data, "headshot")] else r1;
    var r3 := r2["bio" := Get(data, "bio")];
    var r4 := if Get(data, "googleScholar") != None then r3["googleScholar" := Get(data, "googleScholar")] else r3;
    var r5 := if Get(data, "email") != None then r4["email" := Get(data, "email")] else r4;
    r5["score" := Some(score)]
  }

  /** `headshot`, `googleScholar` and `email` appear exactly when the document
      defines them; every field but the score is the document's value. */
  lemma ProfessorFields(data: Obj, score: Value)
    ensures var r := ProjectProfessor(data, score);
      && (forall k :: k in ["headshot", "googleScholar", "email"] ==> (k in r <==> Get(data, k).Some?))
      && (forall k :: k in r && k != "score" ==> r[k] == Get(data, k))
      && r["score"] == Some(score)
  {
  }

  const ProfessorShape: Shape := Shape(
    ["name", "credentials", "title", "bio"],
    ["headshot", "googleScholar", "email"],
    [],
    true)

  lemma ProfessorShapeNames()
    ensures DerivedNames(ProfessorShape.derived) == {}
  {
  }

  lemma ProfessorShapeWellFormed()
    ensures WellFormed(ProfessorShape)
  {
    ProfessorShapeNames();
  }

  lemma ProfessorKeysAgree(data: Obj, score: Value)
    ensures ProjectProfessor(data, score).Keys == Keys(ProfessorShape, data)
  {
    ProfessorShapeNames();
    ProfessorFields(data, score);
    var c := ProjectProfessor(data, score);
    var opt := DefinedKeys(ProfessorShape.optional, data);
    assert Keys(ProfessorShape, data) == {"name", "credentials", "title", "bio"} + opt + {ScoreKey};
    forall k | k in c ensures k in {"name", "credentials", "title", "bio"} + opt + {ScoreKey} {
      if k in ["headshot", "googleScholar", "email"] {
        assert k in opt;
      }
    }
  }

  /** The professor projector is the professor instance of the generic projection. */
  lemma ProfessorEqualsShape(data: Obj, score: Value)
    requires WellFormed(ProfessorShape)
    ensures ProjectProfessor(data, score) == Project(ProfessorShape, data, score)
  {
    ProfessorKeysAgree(data, score);
    ProfessorFields(data, score);
    ProjectCharacterised(ProfessorShape, data, score, ProjectProfessor(data, score));
  }

  lemma ProfessorIsShape(data: Obj, score: Value)
    ensures WellFormed(ProfessorShape)
    ensures ProjectProfessor(data, score) == Project(ProfessorShape, data, score)
  {
    ProfessorShapeWellFormed();
    ProfessorEqualsShape(data, score);
  }

  // ---------------------------------------------------------------------------
  // Events (get_upcoming_events)

  function EventOrgUrl(data: Obj): string
  {
    OrganizationPrefix + Render(Get(data, "organizationUri"))
  }

  function EventPhoto(data: Obj): string
  {
    EventPhotoPrefix + Render(Get(data, "photoUri"))
  }

  /** The six event fields every upcoming-event record carries. */
  const EventCopiedKeys: seq<string> := ["eventName", "organizationName", "startDateTimeUtc", "endDateTimeUtc", "description", "location"]

  /** The upcoming-event record: six copied fields and two URLs, no score. */
  function ProjectEvent(data: Obj): (r: Obj)
    ensures r.Keys == KeySet(EventCopiedKeys) + {"org_url", "photo"}
  {
    Whitelist(EventCopiedKeys, data)
      ["org_url" := Some(Str(EventOrgUrl(data)))]
      ["photo" := Some(Str(EventPhoto(data)))]
  }

  /** The copied event fields are the document's values. */
  lemma EventFields(data: Obj)
    ensures forall k :: k in EventCopiedKeys ==> ProjectEvent(data)[k] == Get(data, k)
  {
  }

  /** The links are the two templates, and there is no score. */
  lemma EventLinks(data: Obj)
    ensures var r := ProjectEvent(data);
      && r["org_url"] == Some(Str(EventOrgUrl(data)))
      && r["photo"] == Some(Str(EventPhoto(data)))
      && "score" !in r
  {
  }

  /** The organisation link of an event gives back its `organizationUri`, the photo its `photoUri`. */
  lemma EventUrlsRoundTrip(data: Obj, organizationUri: string, photoUri: string)
    requires Get(data, "organizationUri") == Some(Str(organizationUri)) && Get(data, "photoUri") == Some(Str(photoUri))
    ensures StripPrefix(OrganizationPrefix, EventOrgUrl(data)) == Some(organizationUri)
    ensures StripPrefix(EventPhotoPrefix, EventPhoto(data)) == Some(photoUri)
  {
    StripPrefixOfConcat(OrganizationPrefix, organizationUri);
    StripPrefixOfConcat(EventPhotoPrefix, photoUri);
  }

  const EventShape: Shape := Shape(
    EventCopiedKeys,
    [],
    [Derived("org_url", [Lit(OrganizationPrefix), Slot("organizationUri")]),
     Derived("photo", [Lit(EventPhotoPrefix), Slot("photoUri")])],
    false)

  lemma EventShapeNames()
    ensures DerivedNames(EventShape.derived) == {"org_url", "photo"}
  {
    var sh := EventShape;
    assert sh.derived[0] in sh.derived && sh.derived[1] in sh.derived;
  }

  lemma EventShapeWellFormed()
    ensures WellFormed(EventShape)
  {
    EventShapeNames();
  }

  lemma EventShapeKeys(data: Obj)
    ensures Keys(EventShape, data) == KeySet(EventCopiedKeys) + {"org_url", "photo"}
  {
    EventShapeNames();
    assert DefinedKeys(EventShape.optional, data) == {};
  }

  lemma EventKeysAgree(data: Obj)
    ensures ProjectEvent(data).Keys == Keys(EventShape, data)
  {
    EventShapeKeys(data);
  }

  lemma EventCopiedAgree(data: Obj)
    ensures forall k :: k in EventShape.copied ==> k in ProjectEvent(data) && ProjectEvent(data)[k] == Get(data, k)
  {
    EventFields(data);
  }

  lemma EventEqualsShape(data: Obj, anyScore: Value)
    requires WellFormed(EventShape)
    ensures ProjectEvent(data) == Project(EventShape, data, anyScore)
  {
    EventKeysAgree(data);
    EventCopiedAgree(data);
    EventLinks(data);
    FillTwo(Lit(OrganizationPrefix), Slot("organizationUri"), data);
    FillTwo(Lit(EventPhotoPrefix), Slot("photoUri"), data);
    ProjectCharacterised(EventShape, data, anyScore, ProjectEvent(data));
  }

  /** The event projector is the unscored event instance of the generic
      projection, whatever score that is given. */
  lemma EventIsShape(data: Obj, anyScore: Value)
    ensures WellFormed(EventShape)
    ensures ProjectEvent(data) == Project(EventShape, data, anyScore)
  {
    EventShapeWellFormed();
    EventEqualsShape(data, anyScore);
  }

}
